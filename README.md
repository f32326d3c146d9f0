# AMD SVM hypervisor: bring-up and utilities, modelled in Dafny

This project models the core of a Windows kernel-mode hypervisor built on
AMD's Secure Virtual Machine extensions. The hypervisor virtualizes every
logical processor of the running machine. On each one, nested page tables
then let it redirect and sandbox guest execution. Two source files are
modelled.

- `AMD-Hypervisor/utils.cpp` (module `Utils`, file `utils.dfy`) holds the
  low-level primitives:
  - the per-core dispatcher `ForEachCore`;
  - the byte-signature scan `FindPattern` (with a wildcard byte);
  - `ModuleFromAddress` over a process's loader list;
  - the helpers `Diff`, `IsInsideRange` and `Exponent`;
  - the CR0 write-protect toggles `DisableWP` and `EnableWP`.
- `AMD-Hypervisor/main.cpp` (module `BringUp`, file `bringup.dfy`) holds
  `VirtualizeAllProcessors` and `Initialize`. `VirtualizeAllProcessors` runs
  these steps:
  1. it checks two capability probes;
  2. it builds four nested-paging views (`primary`, `noexecute`, `sandbox`,
     `sandbox_single_step`), each with a fixed permission policy;
  3. it runs a per-core routine on every core through the dispatcher;
  4. it finally calls the hook manager's cleanup.

  The per-core routine first checks the idempotency guard. If the core is not
  yet virtualized, it enables SVME, allocates and configures that core's VCPU
  block, and launches the guest. If the guest state is rejected, it breaks
  into the debugger instead.

Module `Machine` (`machine.dfy`) holds what both depend on: the 64-bit
unsigned and 32-bit signed integers of the x86-64 target, with their
wrap-around written out. It also holds the mathematical power `Pow` and the
bit predicate `BitSet`.

Callees whose bodies are not in these two files are not modelled as code.
Most of them leave a record: each such call is an `Event` in the `trace` of
the `HypervisorState` object, in the order the code issues it. The recorded
calls are:

- `BuildNestedPagingTables`, `KeSetSystemAffinityThread`, `RtlCaptureContext`;
- `EnableSvme`, the `vcpu_data` allocation, `ConfigureProcessor`, `LaunchVm`;
- `__debugbreak` and `NptHooks::CleanupOnProcessExit`;
- the `Init`/`Start` routines of the logger, disassembler, sandbox and hook
  manager.

The two probes `IsSvmSupported` and `IsSvmUnlocked`, and the guest-state
validator `IsCoreReadyForVmrun`, leave no event. Their answers are fields of
a `Platform` value:

- `svmSupported` and `svmUnlocked` answer the two probes;
- `rejectedCores` is the set of cores whose configured guest state
  `IsCoreReadyForVmrun` refuses.

So the trace does not show that `IsSvmUnlocked` is never called once
`IsSvmSupported` has failed (main.cpp:14-24).

The model assumes that a launched core reports `IsHypervisorPresent` true
afterwards. `LaunchVm` is an external assembly routine (main.cpp:10) and its
body is not in these files.

`HypervisorState` is the model of the process-wide `Hypervisor::Get()`
object:

- `ncr3Dirs` is an array with one nested directory per view;
- `vcpuData` is an array with one VCPU slot per core, assigned in place;
- `present` holds the per-core present flags;
- `trace` records the events issued so far.

Its methods are proved against the specification functions `CoreTrace`,
`DispatchTrace`, `BringUpTrace` and `PresentAfter`. The lemmas state what the
code promises about those functions.

Points where the code's behaviour is easy to misread:

- The `ExAllocatePoolZero` result at main.cpp:54 is used without a null
  check, so the model's allocation always yields a fresh block.
- `FindPattern` returns the lowest matching offset, so a pattern present at
  `k` is found at `k` only when nothing earlier matches
  (`Utils.FindPatternFindsPlanted`).
- After the cleanup call, `VirtualizeAllProcessors` has no return statement.
  The model's result there is `Status.NoReturnValue`, not a boolean.
- The register-context buffer is allocated and captured on every visit to a
  core, before the guard is checked, and is never freed. That is the
  `CaptureContext` event.

## Model

| member | source | states |
|---|---|---|
| `Utils.ExponentValue` | AMD-Hypervisor/utils.cpp:185-194 | the result is 1 when `power <= 0`. Otherwise it is congruent to base^power modulo 2^32, and equals base^power exactly when that fits in an `int`. |
| `Utils.Exponent` | AMD-Hypervisor/utils.cpp:185-194 | the repeated-multiplication loop, with 32-bit wrap at every step, returns `ExponentValue(base, power)` |
| `Utils.AffinityMask` | AMD-Hypervisor/utils.cpp:48 | the intended mask for core `idx` (idx < 64) is 2^idx and admits processor `idx` and no other |
| `Utils.AffinityAsWritten` | AMD-Hypervisor/utils.cpp:48 | the mask set for loop index idx is the `int` result of `Exponent(2, idx)` converted to the unsigned 64-bit `KAFFINITY`, that is reduced modulo 2^64 |
| `Utils.AffinityAsWrittenBelow31` | AMD-Hypervisor/utils.cpp:48 | for loop indices 0 to 30, `(KAFFINITY)Exponent(2, idx)` is the single-processor mask 2^idx |
| `Utils.AffinityAsWrittenAt31` | AMD-Hypervisor/utils.cpp:48 | at index 31 the mask is sign-extended to 0xFFFFFFFF80000000. It admits every processor from 31 to 63, so it is not the single-processor mask. |
| `Utils.AffinityAsWrittenFrom32` | AMD-Hypervisor/utils.cpp:48 | from index 32 on, the mask is 0 and admits no processor |
| `Utils.ForEachCore` | AMD-Hypervisor/utils.cpp:42-56 | returns 0 and records exactly 2·core_count steps. Step 2·idx sets the affinity to `(KAFFINITY)Exponent(2, idx)`, and step 2·idx+1 then runs the callback for index idx. |
| `Utils.ForEachCoreCallsEachIndexOnce` | AMD-Hypervisor/utils.cpp:46-53 | the callback runs exactly core_count times, with the indices 0, 1, …, core_count−1 in increasing order. Zero cores means zero calls. |
| `Utils.Diff` | AMD-Hypervisor/utils.cpp:58-72 | the result is abs(a − b) narrowed to `int`: the one `int` congruent to abs(a − b) modulo 2^32. It equals abs(a − b) exactly when the distance fits. |
| `Utils.DiffSymmetric` | AMD-Hypervisor/utils.cpp:58-72 | `Diff(a, b) == Diff(b, a)` |
| `Utils.DiffSelf` | AMD-Hypervisor/utils.cpp:58-72 | `Diff(a, a) == 0` |
| `Utils.IsInsideRange` | AMD-Hypervisor/utils.cpp:98-109 | the check as written is true for every address at or above `range_base`, and true for every address when `range_base + range_size` does not overflow |
| `Utils.IsInsideRangeFalseExactlyOnWrap` | AMD-Hypervisor/utils.cpp:100-104 | it returns false if and only if address < range_base, range_base + range_size ≥ 2^64, and the wrapped end is below the address |
| `Utils.IsInsideRangeAcceptsOutside` | AMD-Hypervisor/utils.cpp:100-101 | address 0 is reported inside the range [0x1000, 0x1010] |
| `Utils.IsInsideRangeInclusive` | AMD-Hypervisor/utils.cpp:100-101 | the corrected check: for a range whose end does not overflow, it is true exactly when range_base ≤ address ≤ range_base + range_size, and it implies the as-written check |
| `Utils.FirstMatch` | AMD-Hypervisor/utils.cpp:76-93 | Some(k): k < region_size, the pattern matches at k and at no earlier offset. None: it matches nowhere below region_size. |
| `Utils.FindPattern` | AMD-Hypervisor/utils.cpp:74-96 | the nested scan returns region_base + k for the first match k, or 0 when there is none |
| `Utils.FindPatternEmptyRegion` | AMD-Hypervisor/utils.cpp:76 | region_size 0 gives no match, so the result is 0 |
| `Utils.FindPatternEmptyPattern` | AMD-Hypervisor/utils.cpp:81-91 | an empty pattern in a non-empty region matches at offset 0, so the result is region_base |
| `Utils.FindPatternLastCandidate` | AMD-Hypervisor/utils.cpp:76-77 | the candidate at region_size−1 is tried even when the pattern extends beyond the region |
| `Utils.FindPatternFindsPlanted` | AMD-Hypervisor/utils.cpp:76-93 | a pattern present at offset k is found at k or at an earlier match, and at k exactly when nothing earlier matches |
| `Utils.WildcardOnlyInPattern` | AMD-Hypervisor/utils.cpp:83 | a wildcard byte in memory under a non-wildcard pattern byte is a mismatch |
| `Utils.FirstModuleContaining` | AMD-Hypervisor/utils.cpp:26-37 | Some(k): module k's image [DllBase, DllBase+ImageSize] contains the address and no earlier module's does. None: no module's does. |
| `Utils.ModuleFromAddress` | AMD-Hypervisor/utils.cpp:8-40 | returns the DllBase and copies the name of the first module in list order containing the address. It returns 0 and copies nothing when the PEB or loader data is missing or no module matches. |
| `Utils.WithoutWriteProtect` | AMD-Hypervisor/utils.cpp:115-119 | bit 16 (WP) of the result is clear and every other bit of CR0 is kept |
| `Utils.WithWriteProtect` | AMD-Hypervisor/utils.cpp:128-134 | bit 16 (WP) of the result is set and every other bit of CR0 is kept |
| `Utils.WriteProtectRoundTrip` | AMD-Hypervisor/utils.cpp:111-137 | enabling after disabling restores any CR0 that had WP set |
| `Utils.Processor.DisableWP` | AMD-Hypervisor/utils.cpp:115-119 | CR0 is rewritten with WP cleared |
| `Utils.Processor.EnableWP` | AMD-Hypervisor/utils.cpp:128-134 | CR0 is rewritten with WP set |
| `BringUp.ViewSetupTrace` | AMD-Hypervisor/main.cpp:26-29 | the four builds in slot order: primary RWX, noexecute RW-, sandbox RW-, sandbox_single_step RWX |
| `BringUp.CoreTrace` | AMD-Hypervisor/main.cpp:44-72 | the per-core routine always captures a register context. If the guard finds the hypervisor absent, it then enables SVME, allocates and configures the VCPU block, and then either launches or breaks. |
| `BringUp.DispatchTrace` | AMD-Hypervisor/utils.cpp:46-53 | for indices 0 to n−1 in order, one affinity change for that index and then the per-core routine for it |
| `BringUp.BringUpTrace` | AMD-Hypervisor/main.cpp:12-82 | nothing when a probe fails. Otherwise the view builds, the dispatcher's run and then one cleanup. |
| `BringUp.HypervisorState.IsHypervisorPresent` | AMD-Hypervisor/main.cpp:48 | the guard reads the core's present flag |
| `BringUp.PresentAfter` | AMD-Hypervisor/main.cpp:48-72 | a core present before stays present. A core absent before becomes present exactly when its guest state is accepted. |
| `BringUp.DispatchEventsPerCore` | AMD-Hypervisor/main.cpp:31-79 | restricted to one core, the dispatcher's run is exactly that core's routine when the core exists, and empty otherwise |
| `BringUp.DispatchAffinities` | AMD-Hypervisor/main.cpp:31-79 | the thread is pinned to cores 0 … n−1 in increasing order, each time with a mask admitting that core alone |
| `BringUp.DispatchEventsStep` | AMD-Hypervisor/utils.cpp:46-53 | one more loop iteration adds that core's routine to its own projection and nothing to any other core's |
| `BringUp.DispatchAffinitiesStep` | AMD-Hypervisor/utils.cpp:46-53 | one more loop iteration adds exactly one affinity change, the mask of that core alone |
| `BringUp.DispatchTraceIsPerCore` | AMD-Hypervisor/main.cpp:31-79 | the dispatcher's run consists only of affinity changes and per-core events |
| `BringUp.BringUpEventsPerCore` | AMD-Hypervisor/main.cpp:12-82 | restricted to one core, the whole bring-up is that core's routine if both probes pass, and nothing otherwise |
| `BringUp.ProbeFailureDoesNothing` | AMD-Hypervisor/main.cpp:14-24 | a failed probe means no view is built, no core is visited and no cleanup runs |
| `BringUp.BringUpOrder` | AMD-Hypervisor/main.cpp:26-31 | the four views are built first, in the order primary RWX, noexecute RW-, sandbox RW-, sandbox_single_step RWX, and none later. The cleanup is the last event and occurs exactly once. |
| `BringUp.PresentCoreIsSkipped` | AMD-Hypervisor/main.cpp:48 | on a core already present, only the context capture happens: no SVME enable, allocation, configuration or launch |
| `BringUp.AbsentCoreSequence` | AMD-Hypervisor/main.cpp:50-72 | a core not present gets in order: capture, SVME enable, allocation, configuration, then LaunchVm, or a break when its guest state is rejected. LaunchVm occurs iff the state is accepted; the break occurs iff it is rejected. |
| `BringUp.EveryCoreVirtualizedOrHalted` | AMD-Hypervisor/main.cpp:48-72 | after the bring-up, every core is present or has a recorded break |
| `BringUp.SecondBringUpSkipsPresentCores` | AMD-Hypervisor/main.cpp:48 | a second run on the resulting flags leaves them unchanged and allocates nothing on a present core |
| `BringUp.HypervisorState.Initialize` | AMD-Hypervisor/main.cpp:85-95 | starts the logger, disassembler, sandbox and hook manager in that order and returns 0 |
| `BringUp.HypervisorState.BuildView` | AMD-Hypervisor/main.cpp:26-29 | only the view's `ncr3_dirs` slot changes: it now holds the tables built with the given policy |
| `BringUp.HypervisorState.VirtualizeCore` | AMD-Hypervisor/main.cpp:32-78 | the trace grows by `CoreTrace`. Only this core's present flag and `vcpu_data` slot can change. A core not present gets a fresh block configured from its own context. |
| `BringUp.HypervisorState.DispatchTo` | AMD-Hypervisor/utils.cpp:48-52 | the trace grows by one affinity change for this core and then by `CoreTrace`. Only this core's present flag and `vcpu_data` slot can change. |
| `BringUp.HypervisorState.RunOnEachCore` | AMD-Hypervisor/main.cpp:31-79 | the trace grows by `DispatchTrace` and the flags become `PresentAfter`. Slots of present cores are unchanged; the others hold fresh configured blocks. |
| `BringUp.HypervisorState.VirtualizeAllProcessors` | AMD-Hypervisor/main.cpp:12-82 | with a failed probe: returns false and changes nothing. Otherwise: the four slots hold RWX, RW-, RW-, RWX, the trace grows by `BringUpTrace`, the flags become `PresentAfter`, and no value is returned. |

## Left out

- IRQL raising and lowering, and interrupt disabling and enabling, in `DisableWP`/`EnableWP` are left out. They are hardware side effects with no value to model. The `KIRQL` returned by `DisableWP` is not carried.
- `__readcr0`/`__writecr0` become reads and writes of the `Utils.Processor.cr0` field.
- `PsGetProcessPeb`, `CONTAINING_RECORD` and the `LDR_IMAGESIZE` offset are abstracted to a `Peb` value holding a sequence of loader entries. The raw read is 8 bytes at offset 0x40, and the model takes its value as the entry's `imageSize`.
- `Utils.ModuleFromAddress`: `wcscpy` into `out_name` is modelled as returning the copied name. The size of the caller's buffer is not modelled.
- `GetKernelModule` is not modelled. Its walk depends on the list-head layout, and it writes through a pointer guarded by `MmIsAddressValid`.
- `GetProcessId` is not modelled. It walks a raw process-link offset, and its not-found path ends without a return value.
- `EntryPoint` and `DriverUnload` are left out. They are driver lifecycle and logging. The two system threads `EntryPoint` starts make `Initialize` and `VirtualizeAllProcessors` run concurrently; only the order inside each function is modelled.
- The internals of `BuildNestedPagingTables`, `ConfigureProcessor`, `IsCoreReadyForVmrun`, `LaunchVm`, `EnableSvme`, `IsSvmSupported`, `IsSvmUnlocked` and `IsHypervisorPresent` are not modelled. They are not in these files and appear only as trace events, `Platform` answers and the `present` flags. So the translation contents of each view are not modelled, only the policy it was built with.
- `RtlCaptureContext`, `KeGetCurrentProcessorNumberEx` and pool allocation are external calls. Allocation always yields a fresh zeroed object, since the code never checks for null, and the context buffer is never freed.
- `DbgPrint` and `Logger` output is left out.
- `Utils.FindPattern`: reads of memory beyond what the region's last candidate needs are not modelled. `mem` must cover `region_size + pattern_size − 1` bytes, and `region_base + region_size` must not wrap.
- `Utils.Exponent`: signed overflow is undefined in C++. The model takes the two's-complement wrap that the compiled x86-64 code performs.
- `Utils.ForEachCore` requires core_count ≤ INT32_MAX, because its loop counter is an `int`.
- `Utils.Diff`: signed narrowing of a distance that does not fit in an `int` is implementation-defined in C++. The model takes the two's-complement truncation of the x86-64 compilers.
- `BringUp.HypervisorState.DispatchTo` pins with `Utils.AffinityMask`, the corrected mask, for the same reason as `RunOnEachCore` below.
- `BringUp.HypervisorState.RunOnEachCore` pins with the corrected single-processor mask `Utils.AffinityMask` rather than `(KAFFINITY)Exponent(2, idx)`. It takes `core_num` to be the loop index. The two masks agree for the first 31 cores (`Utils.AffinityAsWrittenBelow31`). Dafny methods cannot be passed as callbacks, so the dispatcher's loop is written out around the per-core routine.
- `BringUp.DispatchAffinities`: holds of the source only on machines with at most 31 cores. It is proved of the dispatcher with the corrected mask. In the code, index 31 pins to a mask admitting cores 31 to 63 and indices 32 and up pin to 0 (`Utils.AffinityAsWrittenAt31`, `Utils.AffinityAsWrittenFrom32`).
- `BringUp.DispatchEventsPerCore`: holds of the source only on machines with at most 31 cores, for the same reason.
- `BringUp.DispatchEventsStep`: holds of the source only on machines with at most 31 cores, for the same reason.
- `BringUp.DispatchAffinitiesStep`: holds of the source only on machines with at most 31 cores, for the same reason.
- `BringUp.DispatchTrace`: pins with the corrected mask, so it matches the source only on machines with at most 31 cores.
- `BringUp.EveryCoreVirtualizedOrHalted`: holds of the source only on machines with at most 31 cores, for the same reason. With more cores, `core_num` is the number of whatever core the thread happens to run on, so some cores can be visited twice and others never.
- `BringUp.BringUpEventsPerCore`: holds of the source only on machines with at most 31 cores, for the same reason.
- `BringUp.PresentCoreIsSkipped`: holds of the source only on machines with at most 31 cores, for the same reason.
- `BringUp.AbsentCoreSequence`: holds of the source only on machines with at most 31 cores, for the same reason. In the source, index 32 and up pin to mask 0, so such a core is not reliably the one the routine runs on.
- `BringUp.SecondBringUpSkipsPresentCores`: holds of the source only on machines with at most 31 cores, for the same reason.
- `BringUp.HypervisorState.VirtualizeAllProcessors`: its per-core clauses hold of the source only on machines with at most 31 cores, for the same reason. These are the trace, `present == PresentAfter(...)` and a fresh block for every core that was absent. The bound of 64 cores, the processors one affinity mask can name, is only the model's own. `__debugbreak` is a recorded event after which execution continues, as when a debugger resumes. Without a debugger it would bring the system down.

## Findings

| source | as written | input that shows it | evidently intended | confidence | as-written member | corrected member |
|---|---|---|---|---|---|---|
| AMD-Hypervisor/utils.cpp:100-101 | `range_base > address && range_base + range_size < address` returns false | address 0, range_base 0x1000, range_size 0x10 returns true | a logical or in place of the logical and: false outside [range_base, range_base + range_size] | not executed | `Utils.IsInsideRangeAcceptsOutside` | `Utils.IsInsideRangeInclusive` |
| AMD-Hypervisor/utils.cpp:48 | affinity `(KAFFINITY)Exponent(2, idx)` computed in a 32-bit `int` | idx 31 gives 0xFFFFFFFF80000000 (processors 31 to 63); idx 32 gives 0 (no processor) | `(KAFFINITY)1 << idx`, admitting processor idx alone | not executed | `Utils.AffinityAsWrittenAt31` | `Utils.AffinityMask` |
