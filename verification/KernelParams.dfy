/** A kernel's parameters: the layout the PTX parser works out, binding host arguments to them, and the
    check before a launch (src/cuda-sim/ptx_ir.h, src/cuda-sim/cuda-sim.cc, libcuda/cuda_runtime_api.cc). */
module KernelParams {
  import opened Results
  import opened Arithmetic
  import opened Sequences

  /** A declared parameter: its size in bytes and its `.align`, if written. */
  datatype Param = Param(size: nat, align: Option<nat>)

  /** An argument as `cudaSetupArgument` gets it: where its bytes start in host memory. */
  datatype Arg = Arg(start: nat, size: nat, offset: nat)

  datatype ParamConfig = ParamConfig(size: nat, offset: nat)

  /** A parameter as written to a kernel's parameter memory. */
  datatype Slot = Slot(start: nat, address: nat, size: nat)

  datatype BindError = NoSuchParameter | SizeChanged

  type Bindings = seq<Option<Arg>>

  /* The layout of declared parameters */

  function AlignOf(p: Param): nat {
    if p.align.Some? then p.align.value else p.size
  }

  /** What `add_function_arg` asserts. */
  predicate Declarable(p: Param) {
    p.size > 0 && (AlignOf(p) == 1 || AlignOf(p) == 2 || AlignOf(p) == 4 || AlignOf(p) == 8 || AlignOf(p) == 16)
  }

  ghost predicate AllDeclarable(params: seq<Param>) {
    forall i :: 0 <= i < |params| ==> Declarable(params[i])
  }

  /** The next multiple of the alignment, as `add_config_param` computes it. */
  function NextAligned(nominal: nat, align: nat): nat
    requires align > 0
  {
    if nominal % align != 0 then (nominal / align + 1) * align else nominal
  }

  function OffsetAfter(configs: seq<ParamConfig>, align: nat): nat
    requires align > 0
  {
    if configs == [] then 0
    else NextAligned(configs[|configs| - 1].size + configs[|configs| - 1].offset, align)
  }

  function NextConfig(configs: seq<ParamConfig>, p: Param): ParamConfig {
    ParamConfig(p.size, if Declarable(p) then OffsetAfter(configs, AlignOf(p)) else 0)
  }

  /** The sizes and offsets recorded while a kernel is parsed. */
  function Configs(params: seq<Param>): (configs: seq<ParamConfig>)
    ensures |configs| == |params|
  {
    if params == [] then []
    else
      var p, front := params[|params| - 1], Configs(params[..|params| - 1]);
      front + [NextConfig(front, p)]
  }

  /* Binding */

  /** `add_data` accepts a value unless one of another size was bound before. */
  predicate Accepts(bound: Option<Arg>, a: Arg) {
    bound.Some? ==> bound.value.size == a.size
  }

  /** Argument `i`, counted in the order the arguments were set, has a parameter that accepts it. */
  predicate Bindable(bound: Bindings, args: seq<Arg>) {
    |args| <= |bound| && forall i :: 0 <= i < |args| ==> Accepts(bound[i], args[i])
  }

  /** The bindings once argument `i` is bound to parameter `i`. */
  function Bound(bound: Bindings, args: seq<Arg>): (after: Bindings)
    ensures |after| == |bound|
  {
    seq(|bound|, i requires 0 <= i < |bound| => if i < |args| then Some(args[i]) else bound[i])
  }

  /** The arguments from number `from` on are bound, and only those. */
  ghost predicate BoundFrom(before: Bindings, args: seq<Arg>, from: int, bound: Bindings) {
    && 0 <= from <= |args| && |bound| == |before|
    && (from < |args| ==> |args| <= |before|)
    && (forall i :: from <= i < |args| ==> Accepts(before[i], args[i]))
    && (forall i :: 0 <= i < |bound| ==> bound[i] == if from <= i < |args| then Some(args[i]) else before[i])
  }

  /* The check before a launch */

  /** As `finalize` rounds addresses up. */
  function RoundUp(a: nat, align: nat): nat {
    if align == 0 then a else (a + align - 1) / align * align
  }

  function CopySize(p: Param, b: Option<Arg>): nat {
    if b.None? then 0 else if b.value.size < p.size then b.value.size else p.size
  }

  function LaunchAlign(p: Param, b: Option<Arg>): nat {
    if p.align.Some? then p.align.value else CopySize(p, b)
  }

  /** The first free address after parameter `i - 1`. */
  function FreeFrom(params: seq<Param>, bound: Bindings, i: nat): nat
    requires i <= |params| == |bound|
    decreases i, 0
  {
    if i == 0 then 0
    else Place(params, bound, i - 1) + CopySize(params[i - 1], bound[i - 1])
  }

  /** The address of parameter `i`. */
  function Place(params: seq<Param>, bound: Bindings, i: nat): nat
    requires i < |params| == |bound|
    decreases i, 1
  {
    RoundUp(FreeFrom(params, bound, i), LaunchAlign(params[i], bound[i]))
  }

  /** Parameter `i` has a value, an alignment, and the offset its argument was set with. */
  predicate Placeable(params: seq<Param>, bound: Bindings, i: nat)
    requires i < |params| == |bound|
  {
    && bound[i].Some?
    && LaunchAlign(params[i], bound[i]) != 0
    && U32(bound[i].value.offset) == Place(params, bound, i)
  }

  predicate Launchable(params: seq<Param>, bound: Bindings)
    requires |params| == |bound|
  {
    forall i :: 0 <= i < |params| ==> Placeable(params, bound, i)
  }

  function SlotAt(params: seq<Param>, bound: Bindings, i: nat): Slot
    requires i < |params| == |bound|
  {
    Slot(if bound[i].Some? then bound[i].value.start else 0, Place(params, bound, i), CopySize(params[i], bound[i]))
  }

  /** What a launch writes to the kernel's parameter memory. */
  function Slots(params: seq<Param>, bound: Bindings): (slots: seq<Slot>)
    requires |params| == |bound|
    ensures |slots| == |params|
    ensures forall i :: 0 <= i < |params| ==> slots[i] == SlotAt(params, bound, i)
  {
    seq(|params|, i requires 0 <= i < |params| => SlotAt(params, bound, i))
  }

  class FunctionInfo {
    const params: seq<Param>
    var paramConfigs: seq<ParamConfig>
    var bound: Bindings

    ghost predicate Valid()
      reads this
    {
      |bound| == |params| && paramConfigs == Configs(params)
    }

    /** Declares the parameters one by one, as the parser does. */
    constructor (params: seq<Param>)
      requires AllDeclarable(params)
      ensures Valid() && this.params == params
      ensures forall i :: 0 <= i < |params| ==> bound[i] == None
    {
      this.params := params;
      paramConfigs := [];
      bound := [];
      new;
      for i := 0 to |params|
        invariant this.params == params
        invariant |bound| == i && forall k :: 0 <= k < i ==> bound[k] == None
        invariant paramConfigs == Configs(params[..i])
      {
        assert params[..i + 1][..i] == params[..i];
        AddConfigParam(params[i].size, AlignOf(params[i]));
        bound := bound + [None];
      }
      assert params[..|params|] == params;
    }

    method AddConfigParam(size: nat, alignment: nat)
      requires alignment > 0
      modifies this`paramConfigs
      ensures paramConfigs == old(paramConfigs) + [ParamConfig(size, OffsetAfter(old(paramConfigs), alignment))]
    {
      var offset := 0;
      if |paramConfigs| > 0 {
        var last := paramConfigs[|paramConfigs| - 1];
        var offsetNom := last.size + last.offset;
        offset := if offsetNom % alignment != 0 then (offsetNom / alignment + 1) * alignment else offsetNom;
      }
      paramConfigs := paramConfigs + [ParamConfig(size, offset)];
    }

    method AddParamData(argn: nat, arg: Arg) returns (r: Result<(), BindError>)
      modifies this`bound
      ensures r.Success? <==> argn < |old(bound)| && Accepts(old(bound)[argn], arg)
      ensures bound == if r.Success? then old(bound)[argn := Some(arg)] else old(bound)
    {
      if argn >= |bound| {
        return Failure(NoSuchParameter);
      }
      if bound[argn].Some? && bound[argn].value.size != arg.size {
        return Failure(SizeChanged);
      }
      bound := bound[argn := Some(arg)];
      return Success(());
    }

    /** The binding loop of `gpgpu_cuda_ptx_sim_init_grid`: the list holds the argument set last in front
        and is bound from the highest index down. */
    method BindArguments(args: seq<Arg>) returns (ok: bool)
      requires Valid()
      modifies this`bound
      ensures ok <==> Bindable(old(bound), Reversed(args))
      ensures ok ==> bound == Bound(old(bound), Reversed(args))
      ensures Valid()
    {
      var argcount := |args|;
      ghost var before, byOrder := bound, Reversed(args);
      for k := 0 to argcount
        invariant BoundFrom(before, byOrder, argcount - k, bound)
        invariant Valid()
      {
        var argn := k + 1;
        assert args[k] == byOrder[argcount - argn];
        var added := AddParamData(argcount - argn, args[k]);
        if added.Failure? {
          return false;
        }
      }
      return true;
    }

    /** Places the parameters; fails where `finalize` asserts. */
    method Finalize() returns (slots: Option<seq<Slot>>)
      requires Valid()
      ensures slots == if Launchable(params, bound) then Some(Slots(params, bound)) else None
    {
      var paramAddress := 0;
      var written: seq<Slot> := [];
      for i := 0 to |params|
        invariant paramAddress == FreeFrom(params, bound, i)
        invariant forall k :: 0 <= k < i ==> Placeable(params, bound, k)
        invariant |written| == i
        invariant forall k :: 0 <= k < i ==> written[k] == SlotAt(params, bound, k)
      {
        var value := bound[i];
        if value.None? {
          assert !Placeable(params, bound, i);
          return None;
        }
        var size := value.value.size;
        if size != params[i].size {
          size := if size < params[i].size then size else params[i].size;
        }
        var alignAmount := if params[i].align.None? then size else params[i].align.value;
        assert size == CopySize(params[i], bound[i]) && alignAmount == LaunchAlign(params[i], bound[i]);
        if alignAmount == 0 {
          assert !Placeable(params, bound, i);
          return None;
        }
        paramAddress := (paramAddress + alignAmount - 1) / alignAmount * alignAmount;
        assert paramAddress == Place(params, bound, i);
        if U32(value.value.offset) != paramAddress {
          assert !Placeable(params, bound, i);
          return None;
        }
        written := written + [Slot(value.value.start, paramAddress, size)];
        paramAddress := paramAddress + size;
      }
      assert written == Slots(params, bound);
      return Some(written);
    }
  }

  /* Recorded offsets pass the check */

  lemma DivideMultiple(q: nat, r: nat, d: nat)
    requires r < d
    ensures (q * d + r) / d == q && (q * d + r) % d == r
  {
    var n := q * d + r;
    var x, y := n / d, n % d;
    assert n == d * x + y;
    if x < q {
      assert d * (x + 1) <= d * q by { MulMonotone(x + 1, q, d); }
    } else if x > q {
      assert d * (q + 1) <= d * x by { MulMonotone(q + 1, x, d); }
    }
  }

  /** The parser's rounding and the launch's rounding agree, and give the least multiple of the
      alignment that is not below. */
  lemma {:induction false} RoundingsAgree(a: nat, align: nat)
    requires align > 0
    ensures NextAligned(a, align) == RoundUp(a, align)
    ensures a <= RoundUp(a, align) < a + align && RoundUp(a, align) % align == 0
  {
    var q, r := a / align, a % align;
    assert a == q * align + r;
    if r == 0 {
      DivideMultiple(q, align - 1, align);
      DivideMultiple(q, 0, align);
    } else {
      assert a + align - 1 == (q + 1) * align + (r - 1);
      DivideMultiple(q + 1, r - 1, align);
      DivideMultiple(q + 1, 0, align);
    }
  }

  /** The arguments `cuLaunchKernel` makes: each parameter with its recorded size and offset. */
  function DriverArgs(params: seq<Param>, starts: seq<nat>): (args: seq<Arg>)
    requires |starts| == |params|
    ensures |args| == |params|
  {
    seq(|params|, i requires 0 <= i < |params| => Arg(starts[i], Configs(params)[i].size, Configs(params)[i].offset))
  }

  lemma {:induction false} ConfigsPrefix(params: seq<Param>, i: nat)
    requires i <= |params|
    ensures Configs(params[..i]) == Configs(params)[..i]
  {
    if i == |params| {
      assert params[..i] == params;
    } else {
      ConfigsPrefix(params[..|params| - 1], i);
      assert params[..|params| - 1][..i] == params[..i];
    }
  }

  lemma RecordedConfig(params: seq<Param>, i: nat)
    requires i < |params|
    ensures Configs(params)[i] == NextConfig(Configs(params)[..i], params[i])
  {
    ConfigsPrefix(params, i + 1);
    ConfigsPrefix(params, i);
    assert params[..i + 1][..i] == params[..i];
    assert Configs(params)[..i + 1][i] == Configs(params)[i];
  }

  lemma {:induction false} PlaceIsOffset(params: seq<Param>, starts: seq<nat>, bound: Bindings, i: nat)
    requires i < |params| == |starts| == |bound| && AllDeclarable(params)
    requires forall k :: 0 <= k < |params| ==> bound[k] == Some(DriverArgs(params, starts)[k])
    ensures Place(params, bound, i) == Configs(params)[i].offset
    ensures LaunchAlign(params[i], bound[i]) == AlignOf(params[i]) && CopySize(params[i], bound[i]) == params[i].size
  {
    assert Declarable(params[i]);
    RecordedConfig(params, i);
    if i > 0 {
      PlaceIsOffset(params, starts, bound, i - 1);
      RecordedConfig(params, i - 1);
      RoundingsAgree(FreeFrom(params, bound, i), AlignOf(params[i]));
    } else {
      RoundingsAgree(0, AlignOf(params[i]));
    }
  }

  /** The arguments `cuLaunchKernel` makes pass the check and land at their recorded offsets. */
  lemma {:induction false} DriverArgsLaunch(params: seq<Param>, starts: seq<nat>, bound: Bindings)
    requires |params| == |starts| == |bound| && AllDeclarable(params)
    requires forall i :: 0 <= i < |params| ==> Configs(params)[i].offset < TWO_TO_32
    requires forall k :: 0 <= k < |params| ==> bound[k] == Some(DriverArgs(params, starts)[k])
    ensures Launchable(params, bound)
    ensures forall i :: 0 <= i < |params| ==>
      Slots(params, bound)[i] == Slot(starts[i], Configs(params)[i].offset, params[i].size)
  {
    forall i | 0 <= i < |params|
      ensures Placeable(params, bound, i)
      ensures Place(params, bound, i) == Configs(params)[i].offset
      ensures CopySize(params[i], bound[i]) == params[i].size
    {
      assert Declarable(params[i]);
      PlaceIsOffset(params, starts, bound, i);
      RecordedConfig(params, i);
    }
  }

  /** Parameters never overlap: each ends before the next begins. */
  lemma {:induction false} SlotsDisjoint(params: seq<Param>, bound: Bindings, i: nat, j: nat)
    requires |params| == |bound| && Launchable(params, bound) && i < j < |params|
    ensures Slots(params, bound)[i].address + Slots(params, bound)[i].size <= Slots(params, bound)[j].address
  {
    assert Placeable(params, bound, j);
    RoundingsAgree(FreeFrom(params, bound, j), LaunchAlign(params[j], bound[j]));
    if i < j - 1 {
      SlotsDisjoint(params, bound, i, j - 1);
    }
  }

  /** The slot takes as many bytes as both argument and parameter have, from the first address free on that
      the alignment allows, which must be the offset the argument was set with. */
  ghost predicate SlotPacked(p: Param, b: Option<Arg>, free: nat, s: Slot) {
    && b.Some? && s.start == b.value.start
    && s.size <= b.value.size && s.size <= p.size && (s.size == b.value.size || s.size == p.size)
    && var align := if p.align.Some? then p.align.value else s.size;
      && align > 0 && s.address % align == 0 && free <= s.address < free + align
      && s.address == b.value.offset % TWO_TO_32
  }

  /** The slots are packed in parameter order, from address 0 on. */
  ghost predicate IsPacked(params: seq<Param>, bound: Bindings, slots: seq<Slot>)
    requires |params| == |bound|
  {
    |slots| == |params| && forall i: nat :: i < |slots| ==> PackedAt(params, bound, slots, i)
  }

  ghost predicate PackedAt(params: seq<Param>, bound: Bindings, slots: seq<Slot>, i: nat)
    requires i < |slots| == |params| == |bound|
  {
    SlotPacked(params[i], bound[i], EndBefore(slots, i), slots[i])
  }

  function EndBefore(slots: seq<Slot>, i: nat): nat
    requires i <= |slots|
  {
    if i == 0 then 0 else slots[i - 1].address + slots[i - 1].size
  }

  lemma {:induction false} RoundedExactly(a: nat, align: nat, b: nat)
    requires align > 0
    ensures b == RoundUp(a, align) <==> b % align == 0 && a <= b < a + align
  {
    RoundingsAgree(a, align);
    var r := RoundUp(a, align);
    if b % align == 0 && a <= b < a + align {
      if b < r {
        MultiplesApart(align, b, r);
      } else if r < b {
        MultiplesApart(align, r, b);
      }
    }
  }

  lemma {:induction false} SlotPackedExactly(params: seq<Param>, bound: Bindings, i: nat, s: Slot)
    requires i < |params| == |bound|
    ensures SlotPacked(params[i], bound[i], FreeFrom(params, bound, i), s) <==>
      Placeable(params, bound, i) && s == SlotAt(params, bound, i)
  {
    var align := LaunchAlign(params[i], bound[i]);
    if align > 0 {
      RoundedExactly(FreeFrom(params, bound, i), align, s.address);
    }
  }

  lemma {:induction false} PackedSlot(params: seq<Param>, bound: Bindings, slots: seq<Slot>, i: nat)
    requires |params| == |bound| == |slots| && i < |params| && FreeFrom(params, bound, i) == EndBefore(slots, i)
    requires PackedAt(params, bound, slots, i)
    ensures Placeable(params, bound, i) && slots[i] == SlotAt(params, bound, i)
    ensures FreeFrom(params, bound, i + 1) == EndBefore(slots, i + 1)
  {
    SlotPackedExactly(params, bound, i, slots[i]);
    FreeAfter(params, bound, i);
  }

  lemma {:induction false} PackedFree(params: seq<Param>, bound: Bindings, slots: seq<Slot>, n: nat)
    requires n <= |params| == |bound| && IsPacked(params, bound, slots)
    ensures FreeFrom(params, bound, n) == EndBefore(slots, n)
  {
    if n > 0 {
      PackedFree(params, bound, slots, n - 1);
      PackedSlot(params, bound, slots, n - 1);
    }
  }

  lemma FreeAfter(params: seq<Param>, bound: Bindings, i: nat)
    requires i < |params| == |bound|
    ensures var s := SlotAt(params, bound, i); FreeFrom(params, bound, i + 1) == s.address + s.size
  {
  }

  /** A launch goes ahead with exactly the slots that are packed in this way: there are such slots only if the
      check passes, and then one list of them. */
  lemma {:induction false} PackedExactly(params: seq<Param>, bound: Bindings, slots: seq<Slot>)
    requires |params| == |bound|
    ensures IsPacked(params, bound, slots) <==> Launchable(params, bound) && slots == Slots(params, bound)
  {
    if IsPacked(params, bound, slots) {
      forall i: nat | i < |slots|
        ensures Placeable(params, bound, i) && slots[i] == SlotAt(params, bound, i)
      {
        PackedFree(params, bound, slots, i);
        PackedSlot(params, bound, slots, i);
      }
      assert slots == Slots(params, bound);
    }
    if Launchable(params, bound) && slots == Slots(params, bound) {
      forall i: nat | i < |slots| ensures PackedAt(params, bound, slots, i) {
        LaunchedSlot(params, bound, i);
      }
    }
  }

  lemma {:induction false} LaunchedSlot(params: seq<Param>, bound: Bindings, i: nat)
    requires |params| == |bound| && Launchable(params, bound) && i < |params|
    ensures PackedAt(params, bound, Slots(params, bound), i)
  {
    assert Placeable(params, bound, i);
    SlotPackedExactly(params, bound, i, Slots(params, bound)[i]);
    if i > 0 {
      FreeAfter(params, bound, i - 1);
    }
  }
}
