/** The bring-up sequence of AMD-Hypervisor/main.cpp: the capability gate, the
    four nested-paging views, the per-core virtualization routine run by the
    core dispatcher, the final hook cleanup, and the start-up order of
    `Initialize`. The callees whose bodies lie outside main.cpp are recorded
    as events of a trace, in the order the code issues them. */
module BringUp {
  import opened Machine
  import Utils

  /** The nested-page-table views. The enumeration that numbers the
      `ncr3_dirs` slots is not part of this model; the slot order primary,
      noexecute, sandbox, sandbox_single_step is assumed from the order in
      which main.cpp builds them. */
  datatype NptView = Primary | NoExecute | Sandbox | SandboxSingleStep

  function ViewIndex(view: NptView): (i: nat)
    ensures i < 4
  {
    match view
    case Primary => 0
    case NoExecute => 1
    case Sandbox => 2
    case SandboxSingleStep => 3
  }

  /** The permission policy `BuildNestedPagingTables` gives every leaf entry. */
  datatype PteAccess = PteAccess(readable: bool, writable: bool, executable: bool)

  const RWX: PteAccess := PteAccess(true, true, true)
  const RW: PteAccess := PteAccess(true, true, false)

  /** One `ncr3_dirs` slot: not built yet, or built with a policy. */
  datatype NestedDirectory = Unbuilt | Built(access: PteAccess)

  /** What the hidden callees answer: the two SVM capability probes, and the
      cores whose configured guest state `IsCoreReadyForVmrun` rejects. */
  datatype Platform = Platform(svmSupported: bool, svmUnlocked: bool, rejectedCores: set<nat>)

  predicate SvmUsable(platform: Platform)
  {
    platform.svmSupported && platform.svmUnlocked
  }

  /** What `VirtualizeAllProcessors` hands back: `false` from a failed probe,
      or no value at all when control falls off the end of the function. */
  datatype Status = Returned(value: bool) | NoReturnValue

  /** The side effects, in the order they happen. */
  datatype Event =
    | BuildNestedPagingTables(view: NptView, access: PteAccess)
    | SetAffinity(mask: u64)
    | CaptureContext(core: nat)
    | EnableSvme(core: nat)
    | AllocateVcpu(core: nat)
    | ConfigureProcessor(core: nat)
    | LaunchVm(core: nat)
    | DebugBreak(core: nat)
    | CleanupOnProcessExit
    | LoggerStart
    | DisasmInit
    | SandboxInit
    | NptHooksInit

  /** The core a per-core event belongs to. */
  function CoreOf(e: Event): Option<nat>
  {
    match e
    case CaptureContext(c) => Some(c)
    case EnableSvme(c) => Some(c)
    case AllocateVcpu(c) => Some(c)
    case ConfigureProcessor(c) => Some(c)
    case LaunchVm(c) => Some(c)
    case DebugBreak(c) => Some(c)
    case _ => None
  }

  // ---------------------------------------------------------------------
  // The trace the bring-up produces
  // ---------------------------------------------------------------------

  /** The four views, built in slot order with their policies. */
  function ViewSetupTrace(): seq<Event>
  {
    [ BuildNestedPagingTables(Primary, RWX),
      BuildNestedPagingTables(NoExecute, RW),
      BuildNestedPagingTables(Sandbox, RW),
      BuildNestedPagingTables(SandboxSingleStep, RWX) ]
  }

  /** What the per-core routine does on `core`: it always allocates and
      captures a register context; if the hypervisor is not yet present there
      it enables SVME, allocates and configures the core's VCPU block, and
      then either launches the guest or, for a rejected guest state, breaks. */
  function CoreTrace(core: nat, wasPresent: bool, rejected: bool): seq<Event>
  {
    [CaptureContext(core)]
    + if wasPresent then []
      else [ EnableSvme(core), AllocateVcpu(core), ConfigureProcessor(core),
             if rejected then DebugBreak(core) else LaunchVm(core) ]
  }

  /** The dispatcher's run over the first `n` cores: each pinned with its
      single-processor affinity mask, then the per-core routine. */
  function DispatchTrace(present: seq<bool>, rejected: set<nat>, n: nat): seq<Event>
    requires n <= |present| && n <= 64
  {
    if n == 0 then []
    else DispatchTrace(present, rejected, n - 1)
         + [SetAffinity(Utils.AffinityMask(n - 1))]
         + CoreTrace(n - 1, present[n - 1], n - 1 in rejected)
  }

  /** Everything `VirtualizeAllProcessors` does on a machine with `n` cores
      whose present flags are `present` on entry. */
  function BringUpTrace(platform: Platform, present: seq<bool>, n: nat): seq<Event>
    requires n <= |present| && n <= 64
  {
    if !SvmUsable(platform) then []
    else ViewSetupTrace() + DispatchTrace(present, platform.rejectedCores, n) + [CleanupOnProcessExit]
  }

  /** The present flags after one bring-up: a core that was not present
      becomes present exactly when its guest state is accepted and launched. */
  function PresentAfter(present: seq<bool>, rejected: set<nat>): (after: seq<bool>)
    ensures |after| == |present|
    ensures forall i :: 0 <= i < |present| ==> present[i] ==> after[i]
  {
    seq(|present|, i requires 0 <= i < |present| => present[i] || i !in rejected)
  }

  // ---------------------------------------------------------------------
  // Projections of a trace
  // ---------------------------------------------------------------------

  /** The events of one core, in order. */
  function EventsOf(t: seq<Event>, core: nat): seq<Event>
  {
    if t == [] then []
    else EventsOf(t[..|t| - 1], core) + (if CoreOf(t[|t| - 1]) == Some(core) then [t[|t| - 1]] else [])
  }

  /** The affinity masks set, in order. */
  function Affinities(t: seq<Event>): seq<u64>
  {
    if t == [] then []
    else Affinities(t[..|t| - 1]) + (if t[|t| - 1].SetAffinity? then [t[|t| - 1].mask] else [])
  }

  lemma {:induction false} EventsOfAppend(a: seq<Event>, b: seq<Event>, core: nat)
    ensures EventsOf(a + b, core) == EventsOf(a, core) + EventsOf(b, core)
  {
    if b == [] {
      assert a + b == a;
    } else {
      var front := b[..|b| - 1];
      assert (a + b)[..|a + b| - 1] == a + front;
      EventsOfAppend(a, front, core);
    }
  }

  lemma {:induction false} AffinitiesAppend(a: seq<Event>, b: seq<Event>)
    ensures Affinities(a + b) == Affinities(a) + Affinities(b)
  {
    if b == [] {
      assert a + b == a;
    } else {
      var front := b[..|b| - 1];
      assert (a + b)[..|a + b| - 1] == a + front;
      AffinitiesAppend(a, front);
    }
  }

  /** A run of events that all belong to core `i`. */
  lemma {:induction false} EventsOfSingleCore(t: seq<Event>, i: nat, core: nat)
    requires forall k :: 0 <= k < |t| ==> CoreOf(t[k]) == Some(i)
    ensures EventsOf(t, core) == if i == core then t else []
    ensures Affinities(t) == []
  {
    if t != [] {
      EventsOfSingleCore(t[..|t| - 1], i, core);
      assert t[..|t| - 1] + [t[|t| - 1]] == t;
    }
  }

  /** A run of events that belong to no core and set no affinity. */
  lemma {:induction false} EventsOfGlobal(t: seq<Event>, core: nat)
    requires forall k :: 0 <= k < |t| ==> CoreOf(t[k]).None? && !t[k].SetAffinity?
    ensures EventsOf(t, core) == []
    ensures Affinities(t) == []
  {
    if t != [] {
      EventsOfGlobal(t[..|t| - 1], core);
    }
  }

  lemma CoreTraceOfOneCore(core: nat, wasPresent: bool, rejected: bool)
    ensures forall k :: 0 <= k < |CoreTrace(core, wasPresent, rejected)| ==>
              CoreOf(CoreTrace(core, wasPresent, rejected)[k]) == Some(core)
  {
  }

  lemma SetAffinityEvents(mask: u64, core: nat)
    ensures EventsOf([SetAffinity(mask)], core) == []
    ensures Affinities([SetAffinity(mask)]) == [mask]
  {
    assert [SetAffinity(mask)][..0] == [];
  }

  /** A trace extended by one affinity change and a run of core `m`'s events. */
  lemma EventsOfPinnedRoutine(earlier: seq<Event>, mask: u64, routine: seq<Event>, m: nat, core: nat)
    requires forall k :: 0 <= k < |routine| ==> CoreOf(routine[k]) == Some(m)
    ensures EventsOf(earlier + [SetAffinity(mask)] + routine, core)
            == EventsOf(earlier, core) + if m == core then routine else []
    ensures Affinities(earlier + [SetAffinity(mask)] + routine) == Affinities(earlier) + [mask]
  {
    var pin := [SetAffinity(mask)];
    EventsOfAppend(earlier + pin, routine, core);
    EventsOfAppend(earlier, pin, core);
    AffinitiesAppend(earlier + pin, routine);
    AffinitiesAppend(earlier, pin);
    SetAffinityEvents(mask, core);
    EventsOfSingleCore(routine, m, core);
  }

  /** Events that belong to no core around a run leave its projection alone. */
  lemma EventsOfFramed(before: seq<Event>, middle: seq<Event>, after: seq<Event>, core: nat)
    requires forall k :: 0 <= k < |before| ==> CoreOf(before[k]).None? && !before[k].SetAffinity?
    requires forall k :: 0 <= k < |after| ==> CoreOf(after[k]).None? && !after[k].SetAffinity?
    ensures EventsOf(before + middle + after, core) == EventsOf(middle, core)
  {
    EventsOfAppend(before + middle, after, core);
    EventsOfAppend(before, middle, core);
    EventsOfGlobal(before, core);
    EventsOfGlobal(after, core);
  }

  // ---------------------------------------------------------------------
  // Properties of the bring-up trace
  // ---------------------------------------------------------------------

  /** Restricted to one core, the dispatcher's run is exactly that core's
      routine when the core is among the first `n`, and nothing otherwise. */
  lemma DispatchEventsPerCore(present: seq<bool>, rejected: set<nat>, n: nat, core: nat)
    requires n <= |present| && n <= 64
    ensures EventsOf(DispatchTrace(present, rejected, n), core)
            == if core < n then CoreTrace(core, present[core], core in rejected) else []
  {
    if core < n {
      DispatchEventsOfVisited(present, rejected, n, core);
    } else {
      DispatchEventsOfUnvisited(present, rejected, n, core);
    }
  }

  lemma {:induction false} DispatchEventsOfUnvisited(present: seq<bool>, rejected: set<nat>, n: nat, core: nat)
    requires n <= |present| && n <= 64 && n <= core
    ensures EventsOf(DispatchTrace(present, rejected, n), core) == []
  {
    if n > 0 {
      DispatchEventsStep(present, rejected, n, core);
      DispatchEventsOfUnvisited(present, rejected, n - 1, core);
    }
  }

  lemma {:induction false} DispatchEventsOfVisited(present: seq<bool>, rejected: set<nat>, n: nat, core: nat)
    requires n <= |present| && n <= 64 && core < n
    ensures EventsOf(DispatchTrace(present, rejected, n), core) == CoreTrace(core, present[core], core in rejected)
  {
    DispatchEventsStep(present, rejected, n, core);
    if core < n - 1 {
      DispatchEventsOfVisited(present, rejected, n - 1, core);
    } else {
      DispatchEventsOfUnvisited(present, rejected, n - 1, core);
    }
  }

  /** One more core adds that core's routine to its own projection and
      nothing to any other core's. */
  lemma DispatchEventsStep(present: seq<bool>, rejected: set<nat>, n: nat, core: nat)
    requires 0 < n <= |present| && n <= 64
    ensures EventsOf(DispatchTrace(present, rejected, n), core)
            == EventsOf(DispatchTrace(present, rejected, n - 1), core)
               + if n - 1 == core then CoreTrace(n - 1, present[n - 1], n - 1 in rejected) else []
  {
    var m := n - 1;
    CoreTraceOfOneCore(m, present[m], m in rejected);
    EventsOfPinnedRoutine(DispatchTrace(present, rejected, m), Utils.AffinityMask(m),
                          CoreTrace(m, present[m], m in rejected), m, core);
  }

  /** One more core adds exactly one affinity change, to that core's mask. */
  lemma DispatchAffinitiesStep(present: seq<bool>, rejected: set<nat>, n: nat)
    requires 0 < n <= |present| && n <= 64
    ensures Affinities(DispatchTrace(present, rejected, n))
            == Affinities(DispatchTrace(present, rejected, n - 1)) + [Utils.AffinityMask(n - 1)]
  {
    var m := n - 1;
    CoreTraceOfOneCore(m, present[m], m in rejected);
    EventsOfPinnedRoutine(DispatchTrace(present, rejected, m), Utils.AffinityMask(m),
                          CoreTrace(m, present[m], m in rejected), m, 0);
  }

  /** The dispatcher pins the thread to cores 0, 1, ..., n - 1 in increasing
      order, each time with a mask that admits that core alone. */
  lemma {:induction false} DispatchAffinities(present: seq<bool>, rejected: set<nat>, n: nat)
    requires n <= |present| && n <= 64
    ensures |Affinities(DispatchTrace(present, rejected, n))| == n
    ensures forall k :: 0 <= k < n ==> Affinities(DispatchTrace(present, rejected, n))[k] == Utils.AffinityMask(k)
    ensures forall k, p: nat :: 0 <= k < n ==>
              (Utils.Admits(Affinities(DispatchTrace(present, rejected, n))[k], p) <==> p == k)
  {
    if n > 0 {
      DispatchAffinitiesStep(present, rejected, n);
      DispatchAffinities(present, rejected, n - 1);
      var previous := Affinities(DispatchTrace(present, rejected, n - 1));
      var masks := Affinities(DispatchTrace(present, rejected, n));
      assert masks == previous + [Utils.AffinityMask(n - 1)];
      forall k | 0 <= k < n
        ensures masks[k] == Utils.AffinityMask(k)
      {
        if k < n - 1 {
          assert masks[k] == previous[k];
        }
      }
    }
  }

  /** The dispatcher's run holds only affinity changes and per-core events:
      no view is built and no cleanup happens inside it. */
  lemma {:induction false} DispatchTraceIsPerCore(present: seq<bool>, rejected: set<nat>, n: nat)
    requires n <= |present| && n <= 64
    ensures forall k :: 0 <= k < |DispatchTrace(present, rejected, n)| ==>
              DispatchTrace(present, rejected, n)[k].SetAffinity?
              || CoreOf(DispatchTrace(present, rejected, n)[k]).Some?
  {
    if n > 0 {
      DispatchTraceIsPerCore(present, rejected, n - 1);
      CoreTraceOfOneCore(n - 1, present[n - 1], n - 1 in rejected);
    }
  }

  /** The bring-up restricted to one core: that core's routine if both probes
      pass and the core exists, nothing otherwise. */
  lemma BringUpEventsPerCore(platform: Platform, present: seq<bool>, n: nat, core: nat)
    requires n <= |present| && n <= 64
    ensures EventsOf(BringUpTrace(platform, present, n), core)
            == if SvmUsable(platform) && core < n
               then CoreTrace(core, present[core], core in platform.rejectedCores)
               else []
  {
    if SvmUsable(platform) {
      EventsOfFramed(ViewSetupTrace(), DispatchTrace(present, platform.rejectedCores, n),
                     [CleanupOnProcessExit], core);
      DispatchEventsPerCore(present, platform.rejectedCores, n, core);
    }
  }

  /** A failed probe stops the bring-up before anything happens: no view is
      built, no core is visited, no cleanup runs. */
  lemma ProbeFailureDoesNothing(platform: Platform, present: seq<bool>, n: nat)
    requires n <= |present| && n <= 64
    requires !platform.svmSupported || !platform.svmUnlocked
    ensures BringUpTrace(platform, present, n) == []
  {
  }

  /** Once both probes pass, the four views are built first, in slot order
      and with their policies; no view is built afterwards; the hook cleanup
      is the last event and happens exactly once. */
  lemma BringUpOrder(platform: Platform, present: seq<bool>, n: nat)
    requires n <= |present| && n <= 64
    requires SvmUsable(platform)
    ensures |BringUpTrace(platform, present, n)| >= 5
    ensures BringUpTrace(platform, present, n)[..4] == ViewSetupTrace()
    ensures forall k :: 4 <= k < |BringUpTrace(platform, present, n)| ==>
              !BringUpTrace(platform, present, n)[k].BuildNestedPagingTables?
    ensures BringUpTrace(platform, present, n)[|BringUpTrace(platform, present, n)| - 1] == CleanupOnProcessExit
    ensures forall k :: 0 <= k < |BringUpTrace(platform, present, n)| - 1 ==>
              BringUpTrace(platform, present, n)[k] != CleanupOnProcessExit
  {
    var d := DispatchTrace(present, platform.rejectedCores, n);
    var t := BringUpTrace(platform, present, n);
    assert t == ViewSetupTrace() + d + [CleanupOnProcessExit];
    DispatchTraceIsPerCore(present, platform.rejectedCores, n);
    forall k | 4 <= k < |t| - 1
      ensures t[k] == d[k - 4]
    {
    }
  }

  /** A core where the hypervisor is already present is only visited: no
      SVME enable, no allocation, no configuration, no launch. */
  lemma PresentCoreIsSkipped(platform: Platform, present: seq<bool>, n: nat, core: nat)
    requires n <= |present| && n <= 64
    requires SvmUsable(platform) && core < n && present[core]
    ensures EventsOf(BringUpTrace(platform, present, n), core) == [CaptureContext(core)]
  {
    BringUpEventsPerCore(platform, present, n, core);
  }

  /** A core not yet present is taken through SVME enable, a fresh VCPU
      allocation and its configuration, in that order, and then launched
      exactly when its guest state is accepted, and broken into otherwise. */
  lemma AbsentCoreSequence(platform: Platform, present: seq<bool>, n: nat, core: nat)
    requires n <= |present| && n <= 64
    requires SvmUsable(platform) && core < n && !present[core]
    ensures EventsOf(BringUpTrace(platform, present, n), core)
            == [ CaptureContext(core), EnableSvme(core), AllocateVcpu(core), ConfigureProcessor(core),
                 if core in platform.rejectedCores then DebugBreak(core) else LaunchVm(core) ]
    ensures LaunchVm(core) in BringUpTrace(platform, present, n) <==> core !in platform.rejectedCores
    ensures DebugBreak(core) in BringUpTrace(platform, present, n) <==> core in platform.rejectedCores
  {
    var t := BringUpTrace(platform, present, n);
    var routine := CoreTrace(core, false, core in platform.rejectedCores);
    BringUpEventsPerCore(platform, present, n, core);
    assert EventsOf(t, core) == routine;
    InEventsOf(t, core, LaunchVm(core));
    InEventsOf(t, core, DebugBreak(core));
  }

  /** An event of core `core` occurs in a trace exactly when it occurs in that
      core's projection. */
  lemma {:induction false} InEventsOf(t: seq<Event>, core: nat, e: Event)
    requires CoreOf(e) == Some(core)
    ensures e in t <==> e in EventsOf(t, core)
  {
    if t != [] {
      var front := t[..|t| - 1];
      InEventsOf(front, core, e);
      assert t == front + [t[|t| - 1]];
    }
  }

  /** After one bring-up with both probes passing, every core is either
      virtualized or has a recorded break for an invalid guest state. */
  lemma EveryCoreVirtualizedOrHalted(platform: Platform, present: seq<bool>, n: nat, core: nat)
    requires n <= |present| && n <= 64
    requires SvmUsable(platform) && core < n
    ensures PresentAfter(present, platform.rejectedCores)[core]
            || DebugBreak(core) in BringUpTrace(platform, present, n)
  {
    if !present[core] {
      AbsentCoreSequence(platform, present, n, core);
    }
  }

  /** Running the bring-up again on the flags the first run left behind
      allocates, configures and launches nothing on a core that became or
      already was present, and leaves the flags as they are. */
  lemma SecondBringUpSkipsPresentCores(platform: Platform, present: seq<bool>, n: nat, core: nat)
    requires n <= |present| && n <= 64
    requires SvmUsable(platform) && core < n
    requires PresentAfter(present, platform.rejectedCores)[core]
    ensures PresentAfter(PresentAfter(present, platform.rejectedCores), platform.rejectedCores)
            == PresentAfter(present, platform.rejectedCores)
    ensures EventsOf(BringUpTrace(platform, PresentAfter(present, platform.rejectedCores), n), core)
            == [CaptureContext(core)]
    ensures AllocateVcpu(core) !in BringUpTrace(platform, PresentAfter(present, platform.rejectedCores), n)
  {
    var after := PresentAfter(present, platform.rejectedCores);
    PresentCoreIsSkipped(platform, after, n, core);
    InEventsOf(BringUpTrace(platform, after, n), core, AllocateVcpu(core));
  }

  // ---------------------------------------------------------------------
  // The hypervisor's state
  // ---------------------------------------------------------------------

  /** One core's VCPU block, zero-filled when allocated. `guestStateFrom` is
      the core whose captured register context `ConfigureProcessor` copied
      into the guest save-state area, or None while the block is still zero. */
  class VcpuData {
    var guestStateFrom: Option<nat>

    constructor ()
      ensures guestStateFrom == None
    {
      guestStateFrom := None;
    }
  }

  /** The process-wide hypervisor object: one nested page directory per view,
      one VCPU slot per core, and whether the hypervisor is present on each
      core; `trace` records the side effects issued so far. */
  class HypervisorState {
    const coreCount: nat
    const ncr3Dirs: array<NestedDirectory>
    const vcpuData: array<VcpuData?>
    var present: seq<bool>
    var trace: seq<Event>

    ghost predicate Valid()
      reads this
    {
      && ncr3Dirs.Length == 4
      && vcpuData.Length == coreCount
      && |present| == coreCount
      && coreCount <= 64
    }

    constructor (coreCount: nat)
      requires coreCount <= 64
      ensures Valid() && this.coreCount == coreCount
      ensures fresh(ncr3Dirs) && fresh(vcpuData)
      ensures forall v :: 0 <= v < 4 ==> ncr3Dirs[v] == Unbuilt
      ensures forall i :: 0 <= i < coreCount ==> vcpuData[i] == null && !present[i]
      ensures trace == []
    {
      this.coreCount := coreCount;
      ncr3Dirs := new NestedDirectory[4](_ => Unbuilt);
      vcpuData := new VcpuData?[coreCount](_ => null);
      present := seq(coreCount, _ => false);
      trace := [];
    }

    /** Starts the logger, the disassembler, the sandbox policy and the hook
      manager, in that order, and reports success. */
    method Initialize() returns (status: int32)
      modifies this`trace
      ensures trace == old(trace) + [LoggerStart, DisasmInit, SandboxInit, NptHooksInit]
      ensures status == 0
    {
      trace := trace + [LoggerStart];
      trace := trace + [DisasmInit];
      trace := trace + [SandboxInit];
      trace := trace + [NptHooksInit];
      status := 0;
    }

    predicate IsHypervisorPresent(core: nat)
      reads this
      requires core < |present|
    {
      present[core]
    }

    /** Builds the nested page tables of one view into its slot. */
    method BuildView(view: NptView, access: PteAccess)
      requires Valid()
      modifies ncr3Dirs, this`trace
      ensures Valid()
      ensures ncr3Dirs[..] == old(ncr3Dirs[..])[ViewIndex(view) := Built(access)]
      ensures trace == old(trace) + [BuildNestedPagingTables(view, access)]
    {
      ncr3Dirs[ViewIndex(view)] := Built(access);
      trace := trace + [BuildNestedPagingTables(view, access)];
    }

    /** The routine the dispatcher runs on `core`. Only `vcpu_data[core]` and
      the core's own present flag can change. */
    method VirtualizeCore(core: nat, platform: Platform)
      requires Valid() && core < coreCount
      modifies this`present, this`trace, vcpuData
      ensures Valid()
      ensures trace == old(trace) + CoreTrace(core, old(present[core]), core in platform.rejectedCores)
      ensures present == old(present)[core := old(present[core]) || core !in platform.rejectedCores]
      ensures old(present[core]) ==> vcpuData[..] == old(vcpuData[..])
      ensures !old(present[core]) ==>
                && vcpuData[..] == old(vcpuData[..])[core := vcpuData[core]]
                && vcpuData[core] != null && fresh(vcpuData[core])
                && vcpuData[core].guestStateFrom == Some(core)
    {
      // a register-context buffer is allocated and filled on every visit
      trace := trace + [CaptureContext(core)];
      if !IsHypervisorPresent(core) {
        trace := trace + [EnableSvme(core)];
        // the allocation result is used without a null check
        var vcpu := new VcpuData();
        vcpuData[core] := vcpu;
        trace := trace + [AllocateVcpu(core)];
        vcpu.guestStateFrom := Some(core);
        trace := trace + [ConfigureProcessor(core)];
        if core !in platform.rejectedCores {
          trace := trace + [LaunchVm(core)];
          present := present[core := true];
        } else {
          trace := trace + [DebugBreak(core)];
        }
      }
    }

    /** Gates on the two SVM probes, builds the four views, runs the per-core
      routine on every core through the dispatcher and finally calls the hook
      cleanup. Past the cleanup the function has no return statement. */
    method VirtualizeAllProcessors(platform: Platform) returns (status: Status)
      requires Valid()
      modifies this`present, this`trace, vcpuData, ncr3Dirs
      ensures Valid()
      ensures trace == old(trace) + BringUpTrace(platform, old(present), coreCount)
      ensures !SvmUsable(platform) ==>
                && status == Returned(false)
                && present == old(present)
                && ncr3Dirs[..] == old(ncr3Dirs[..])
                && vcpuData[..] == old(vcpuData[..])
      ensures SvmUsable(platform) ==>
                && status == NoReturnValue
                && ncr3Dirs[..] == [Built(RWX), Built(RW), Built(RW), Built(RWX)]
                && present == PresentAfter(old(present), platform.rejectedCores)
      ensures SvmUsable(platform) ==> forall i :: 0 <= i < coreCount ==>
                if old(present[i]) then vcpuData[i] == old(vcpuData[i])
                else vcpuData[i] != null && fresh(vcpuData[i]) && vcpuData[i].guestStateFrom == Some(i)
    {
      if !platform.svmSupported {
        return Returned(false);
      }
      if !platform.svmUnlocked {
        return Returned(false);
      }

      BuildView(Primary, RWX);
      BuildView(NoExecute, RW);
      BuildView(Sandbox, RW);
      BuildView(SandboxSingleStep, RWX);
      RunOnEachCore(platform);
      trace := trace + [CleanupOnProcessExit];
      status := NoReturnValue;
    }

    /** One iteration of the dispatcher: pin the thread to `core` alone and
      run the per-core routine there. */
    method DispatchTo(core: nat, platform: Platform)
      requires Valid() && core < coreCount
      modifies this`present, this`trace, vcpuData
      ensures Valid()
      ensures trace == old(trace) + [SetAffinity(Utils.AffinityMask(core))]
                       + CoreTrace(core, old(present[core]), core in platform.rejectedCores)
      ensures present == old(present)[core := old(present[core]) || core !in platform.rejectedCores]
      ensures forall i :: 0 <= i < coreCount && i != core ==> vcpuData[i] == old(vcpuData[i])
      ensures if old(present[core]) then vcpuData[core] == old(vcpuData[core])
              else vcpuData[core] != null && fresh(vcpuData[core]) && vcpuData[core].guestStateFrom == Some(core)
    {
      trace := trace + [SetAffinity(Utils.AffinityMask(core))];
      VirtualizeCore(core, platform);
      if !old(present[core]) {
        assert forall i :: 0 <= i < coreCount && i != core ==> vcpuData[..][i] == old(vcpuData[..])[i];
      } else {
        assert forall i :: 0 <= i < coreCount ==> vcpuData[..][i] == old(vcpuData[..])[i];
      }
    }

    /** The dispatcher's loop with the per-core routine as its callback: for
      each core index in increasing order, pin the thread with the
      single-processor mask and run the routine there. This is the loop of
      `Utils.ForEachCore` written out around the routine, with the corrected
      mask `Utils.AffinityMask` where `Utils.ForEachCore` records the mask as
      written; its `SetAffinity` events correspond to that method's
      `SetAffinity` steps. */
    method RunOnEachCore(platform: Platform)
      requires Valid()
      modifies this`present, this`trace, vcpuData
      ensures Valid()
      ensures trace == old(trace) + DispatchTrace(old(present), platform.rejectedCores, coreCount)
      ensures present == PresentAfter(old(present), platform.rejectedCores)
      ensures forall i :: 0 <= i < coreCount ==>
                if old(present[i]) then vcpuData[i] == old(vcpuData[i])
                else vcpuData[i] != null && fresh(vcpuData[i]) && vcpuData[i].guestStateFrom == Some(i)
    {
      var idx := 0;
      while idx < coreCount
        invariant Valid()
        invariant idx <= coreCount
        invariant trace == old(trace) + DispatchTrace(old(present), platform.rejectedCores, idx)
        invariant forall i :: 0 <= i < coreCount ==>
                    present[i] == if i < idx then old(present[i]) || i !in platform.rejectedCores else old(present[i])
        invariant forall i :: 0 <= i < coreCount ==>
                    if i < idx && !old(present[i])
                    then vcpuData[i] != null && fresh(vcpuData[i]) && vcpuData[i].guestStateFrom == Some(i)
                    else vcpuData[i] == old(vcpuData[i])
      {
        DispatchTo(idx, platform);
        idx := idx + 1;
      }
      assert present == PresentAfter(old(present), platform.rejectedCores);
    }
  }
}
