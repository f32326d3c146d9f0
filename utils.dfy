/** The low-level primitives of AMD-Hypervisor/utils.cpp: the per-core
    dispatcher, signature scanning, module lookup by address, range and
    difference helpers, integer powers and the CR0 write-protect masks. */
module Utils {
  import opened Machine

  // ---------------------------------------------------------------------
  // Exponent
  // ---------------------------------------------------------------------

  /** The value `Exponent(base, power)` returns: 1 when `power <= 0`,
      otherwise the product of `power` copies of `base`, each step narrowed
      to a 32-bit `int`. */
  function ExponentValue(base: int32, power: int32): (r: int32)
    ensures power <= 0 ==> r == 1
    ensures power > 0 ==> (r - Pow(base, power)) % TWO_32 == 0
    ensures power > 0 && IsInt32(Pow(base, power)) ==> r == Pow(base, power)
  {
    if power <= 0 then 1 else Wrap32(Pow(base, power))
  }

  /** `start *= base`, `power` times. A product that leaves the `int` range
      keeps its low 32 bits, as the compiled code does. */
  method Exponent(base: int32, power: int32) returns (r: int32)
    ensures r == ExponentValue(base, power)
  {
    var start: int32 := 1;
    var i: int32 := 0;
    while i < power
      invariant 0 <= i <= (if power <= 0 then 0 else power)
      invariant start == Wrap32(Pow(base, i))
    {
      Wrap32Product(Pow(base, i), base);
      start := Wrap32(start * base);
      i := i + 1;
    }
    r := start;
  }

  // ---------------------------------------------------------------------
  // ForEachCore
  // ---------------------------------------------------------------------

  /** What the dispatcher does, in order: pin the thread to an affinity mask,
      or run the callback for one loop index. */
  datatype DispatchStep = SetAffinity(mask: u64) | InvokeCallback(index: nat)

  /** The affinity `ForEachCore` sets for loop index `idx`: the `int` result of
      `Exponent(2, idx)` converted to the unsigned 64-bit `KAFFINITY`. */
  function AffinityAsWritten(idx: int32): u64
  {
    Wrap64(ExponentValue(2, idx))
  }

  /** True when affinity `mask` allows processor `p` (bit `p` is set). */
  predicate Admits(mask: u64, p: nat)
  {
    BitSet(mask, p)
  }

  /** The single-processor mask for processor `idx`, `(KAFFINITY)1 << idx`:
      the mask the dispatcher evidently means to set. */
  function AffinityMask(idx: nat): (mask: u64)
    requires idx < 64
    ensures mask == Pow(2, idx)
    ensures forall p: nat :: Admits(mask, p) <==> p == idx
  {
    PowMonotone(idx, 63);
    PowersOfTwo();
    forall p: nat
      ensures BitSet(Pow(2, idx), p) <==> p == idx
    {
      BitsOfPowerOfTwo(idx, p);
    }
    Pow(2, idx)
  }

  /** For the first 31 loop indices the mask as written is the
      single-processor mask. */
  lemma AffinityAsWrittenBelow31(idx: int32)
    requires 0 <= idx < 31
    ensures AffinityAsWritten(idx) == AffinityMask(idx)
  {
    PowMonotone(idx, 30);
    PowersOfTwo();
  }

  /** At loop index 31, `Exponent(2, 31)` leaves the `int` range: it reads
      back as INT32_MIN, whose 64-bit sign extension admits processors 31 to
      63 rather than processor 31 alone. */
  lemma AffinityAsWrittenAt31()
    ensures AffinityAsWritten(31) == 0xFFFF_FFFF_8000_0000
    ensures forall p: nat :: 31 <= p < 64 ==> Admits(AffinityAsWritten(31), p)
    ensures AffinityAsWritten(31) != AffinityMask(31)
  {
    PowersOfTwo();
    var high: nat := 0x1_FFFF_FFFF;
    assert high == Pow(2, 33) - 1 by {
      assert Pow(2, 33) == Pow(2, 32) * 2;
    }
    assert AffinityAsWritten(31) == Pow(2, 31) * high;
    forall p: nat | 31 <= p < 64
      ensures BitSet(Pow(2, 31) * high, p)
    {
      BitsOfShifted(high, 31, p - 31);
      BitsOfAllOnes(33, p - 31);
    }
  }

  /** From loop index 32 on, `Exponent(2, idx)` keeps no bit at all: the mask
      is 0 and admits no processor. */
  lemma AffinityAsWrittenFrom32(idx: int32)
    requires 32 <= idx
    ensures AffinityAsWritten(idx) == 0
    ensures forall p: nat :: !Admits(AffinityAsWritten(idx), p)
  {
    PowerOfTwoFrom32Wraps(idx);
    assert ExponentValue(2, idx) == 0;
    forall p: nat
      ensures !BitSet(0, p)
    {
      NoBitOfZero(p);
    }
  }

  lemma PowerOfTwoFrom32Wraps(n: nat)
    requires 32 <= n
    ensures Wrap32(Pow(2, n)) == 0
  {
    var q := Pow(2, n - 32);
    assert Pow(2, n) == q * TWO_32 by {
      PowersOfTwo();
      PowAdd(2, 32, n - 32);
    }
    Wrap32OfMultiple(q);
  }

  lemma Wrap32OfMultiple(q: int)
    ensures Wrap32(q * TWO_32) == 0
  {
  }

  /** Runs the callback once per active processor: for each loop index it
      first sets the thread affinity to `Exponent(2, idx)` and then calls the
      callback (recorded as a step); it returns 0. The loop counter is an
      `int`, so the count must not exceed INT32_MAX. */
  method ForEachCore(coreCount: nat) returns (status: int32, steps: seq<DispatchStep>)
    requires coreCount <= INT32_MAX
    ensures status == 0
    ensures |steps| == 2 * coreCount
    ensures forall idx: int32 :: 0 <= idx < coreCount ==>
              steps[2 * idx] == SetAffinity(AffinityAsWritten(idx))
    ensures forall idx: int32 :: 0 <= idx < coreCount ==>
              steps[2 * idx + 1] == InvokeCallback(idx)
  {
    steps := [];
    var idx: int32 := 0;
    while idx < coreCount
      invariant 0 <= idx <= coreCount
      invariant |steps| == 2 * idx
      invariant forall k: int32 :: 0 <= k < idx ==> steps[2 * k] == SetAffinity(AffinityAsWritten(k))
      invariant forall k: int32 :: 0 <= k < idx ==> steps[2 * k + 1] == InvokeCallback(k)
    {
      var affinity := Exponent(2, idx);
      steps := steps + [SetAffinity(Wrap64(affinity)), InvokeCallback(idx)];
      idx := idx + 1;
    }
    status := 0;
  }

  /** The loop indices the callback was run with, in order. */
  function Callbacks(steps: seq<DispatchStep>): seq<nat>
  {
    if steps == [] then []
    else Callbacks(steps[..|steps| - 1])
         + (match steps[|steps| - 1] case InvokeCallback(i) => [i] case SetAffinity(_) => [])
  }

  /** The steps `ForEachCore` records run the callback exactly `coreCount`
      times, with the indices 0, 1, ..., coreCount - 1 in increasing order;
      zero processors means no call. */
  lemma {:induction false} ForEachCoreCallsEachIndexOnce(steps: seq<DispatchStep>, coreCount: nat)
    requires coreCount <= INT32_MAX
    requires |steps| == 2 * coreCount
    requires forall idx: int32 :: 0 <= idx < coreCount ==> steps[2 * idx] == SetAffinity(AffinityAsWritten(idx))
    requires forall idx: int32 :: 0 <= idx < coreCount ==> steps[2 * idx + 1] == InvokeCallback(idx)
    ensures |Callbacks(steps)| == coreCount
    ensures forall k :: 0 <= k < coreCount ==> Callbacks(steps)[k] == k
  {
    if coreCount > 0 {
      var n := coreCount - 1;
      var front := steps[..2 * n];
      assert steps[..|steps| - 1][..2 * n] == front;
      forall idx: int32 | 0 <= idx < n
        ensures front[2 * idx] == SetAffinity(AffinityAsWritten(idx))
        ensures front[2 * idx + 1] == InvokeCallback(idx)
      {
      }
      ForEachCoreCallsEachIndexOnce(front, n);
      assert steps[2 * n] == SetAffinity(AffinityAsWritten(n));
      assert steps[2 * n + 1] == InvokeCallback(n);
      assert steps[..|steps| - 1] == front + [steps[2 * n]];
      assert Callbacks(front + [steps[2 * n]]) == Callbacks(front);
      assert Callbacks(steps) == Callbacks(front) + [n];
    }
  }

  // ---------------------------------------------------------------------
  // Diff
  // ---------------------------------------------------------------------

  /** The distance between two addresses, computed in unsigned 64-bit
      arithmetic on the larger-minus-smaller branch and narrowed to `int`. */
  function Diff(a: u64, b: u64): (r: int32)
    ensures (r - (if a > b then a - b else b - a)) % TWO_32 == 0
    ensures a - b <= INT32_MAX && b - a <= INT32_MAX ==> r == (if a > b then a - b else b - a)
  {
    if a > b then Wrap32(a - b) else Wrap32(b - a)
  }

  lemma DiffSymmetric(a: u64, b: u64)
    ensures Diff(a, b) == Diff(b, a)
  {
  }

  lemma DiffSelf(a: u64)
    ensures Diff(a, a) == 0
  {
  }

  // ---------------------------------------------------------------------
  // IsInsideRange
  // ---------------------------------------------------------------------

  /** The range check as written: it answers false only when the address is
      below `range_base` and also above `range_base + range_size` (that sum
      taken modulo 2^64). */
  function IsInsideRange(address: u64, rangeBase: u64, rangeSize: u64): (r: bool)
    ensures address >= rangeBase ==> r
    ensures rangeBase + rangeSize < TWO_64 ==> r
  {
    if rangeBase > address && Wrap64(rangeBase + rangeSize) < address then false else true
  }

  /** The as-written check rejects an address exactly when the address is
      below the base and the end of the range wraps around 2^64 to a value
      below the address. */
  lemma IsInsideRangeFalseExactlyOnWrap(address: u64, rangeBase: u64, rangeSize: u64)
    ensures !IsInsideRange(address, rangeBase, rangeSize)
            <==> rangeBase > address && rangeBase + rangeSize >= TWO_64 && rangeBase + rangeSize - TWO_64 < address
  {
  }

  /** An address far below a small range is reported inside it. */
  lemma IsInsideRangeAcceptsOutside()
    ensures IsInsideRange(0, 0x1000, 0x10)
    ensures !IsInsideRangeInclusive(0, 0x1000, 0x10)
  {
  }

  /** The intended check, `[range_base, range_base + range_size]` with both
      ends included and the end computed in 64-bit arithmetic: the as-written
      test with its `&&` turned into `||`. It is also the containment test
      `ModuleFromAddress` applies to each loaded module. */
  function IsInsideRangeInclusive(address: u64, rangeBase: u64, rangeSize: u64): (r: bool)
    ensures rangeBase + rangeSize < TWO_64 ==> (r <==> rangeBase <= address <= rangeBase + rangeSize)
    ensures r ==> IsInsideRange(address, rangeBase, rangeSize)
  {
    !(rangeBase > address || Wrap64(rangeBase + rangeSize) < address)
  }

  // ---------------------------------------------------------------------
  // FindPattern
  // ---------------------------------------------------------------------

  /** The pattern matches the memory starting at offset `k`: every pattern
      byte equals the memory byte under it or is the wildcard. The wildcard
      is looked for in the pattern only. */
  predicate MatchesAt(mem: seq<bv8>, k: nat, pattern: seq<bv8>, wildcard: bv8)
  {
    && k + |pattern| <= |mem|
    && forall i :: 0 <= i < |pattern| ==> pattern[i] == mem[k + i] || pattern[i] == wildcard
  }

  /** The lowest candidate offset below `regionSize` at which the pattern
      matches, if any. */
  function FirstMatch(mem: seq<bv8>, regionSize: nat, pattern: seq<bv8>, wildcard: bv8): (r: Option<nat>)
    ensures r.Some? ==> && r.value < regionSize
                        && MatchesAt(mem, r.value, pattern, wildcard)
                        && forall j :: 0 <= j < r.value ==> !MatchesAt(mem, j, pattern, wildcard)
    ensures r.None? ==> forall j :: 0 <= j < regionSize ==> !MatchesAt(mem, j, pattern, wildcard)
  {
    if regionSize == 0 then None
    else match FirstMatch(mem, regionSize - 1, pattern, wildcard)
      case Some(k) => Some(k)
      case None =>
        if MatchesAt(mem, regionSize - 1, pattern, wildcard) then Some(regionSize - 1) else None
  }

  /** Scans `[region_base, region_base + region_size)` for the pattern, each
      candidate compared over the whole pattern, and returns the address of
      the first match or 0. `mem[k]` is the byte at `region_base + k`; it must
      reach as far as the last candidate's pattern does. */
  method FindPattern(mem: seq<bv8>, regionBase: u64, regionSize: u64, pattern: seq<bv8>, wildcard: bv8)
    returns (address: u64)
    requires regionBase + regionSize < TWO_64
    requires regionSize == 0 || regionSize - 1 + |pattern| <= |mem|
    ensures address == match FirstMatch(mem, regionSize, pattern, wildcard)
                       case Some(k) => regionBase + k
                       case None => 0
  {
    var offset: nat := 0;
    while offset < regionSize
      invariant offset <= regionSize
      invariant forall j :: 0 <= j < offset ==> !MatchesAt(mem, j, pattern, wildcard)
    {
      var found := true;
      var i := 0;
      while i < |pattern|
        invariant i <= |pattern|
        invariant found <==> forall t :: 0 <= t < i ==> pattern[t] == mem[offset + t] || pattern[t] == wildcard
      {
        if pattern[i] != mem[offset + i] && pattern[i] != wildcard {
          found := false;
        }
        i := i + 1;
      }
      if found {
        assert MatchesAt(mem, offset, pattern, wildcard);
        return regionBase + offset;
      }
      offset := offset + 1;
    }
    return 0;
  }

  /** An empty region yields no match, so `FindPattern` returns 0. */
  lemma FindPatternEmptyRegion(mem: seq<bv8>, pattern: seq<bv8>, wildcard: bv8)
    ensures FirstMatch(mem, 0, pattern, wildcard) == None
  {
  }

  /** An empty pattern matches at the first candidate, so `FindPattern`
      returns `region_base` for any non-empty region. */
  lemma FindPatternEmptyPattern(mem: seq<bv8>, regionSize: nat, wildcard: bv8)
    requires regionSize > 0
    ensures FirstMatch(mem, regionSize, [], wildcard) == Some(0)
  {
    assert MatchesAt(mem, 0, [], wildcard);
  }

  /** Candidates run up to `region_size - 1` even where the pattern reaches
      beyond the end of the region: a match starting at the last byte is
      found when nothing earlier matches. */
  lemma FindPatternLastCandidate(mem: seq<bv8>, regionSize: nat, pattern: seq<bv8>, wildcard: bv8)
    requires regionSize > 0
    requires MatchesAt(mem, regionSize - 1, pattern, wildcard)
    requires forall j :: 0 <= j < regionSize - 1 ==> !MatchesAt(mem, j, pattern, wildcard)
    ensures FirstMatch(mem, regionSize, pattern, wildcard) == Some(regionSize - 1)
  {
  }

  /** A pattern present at offset `k` (wildcard bytes of the pattern standing
      for anything) is found at `k` or at an earlier match; at `k` exactly
      when nothing earlier matches. */
  lemma FindPatternFindsPlanted(mem: seq<bv8>, regionSize: nat, pattern: seq<bv8>, wildcard: bv8, k: nat)
    requires k < regionSize
    requires MatchesAt(mem, k, pattern, wildcard)
    ensures FirstMatch(mem, regionSize, pattern, wildcard).Some?
    ensures FirstMatch(mem, regionSize, pattern, wildcard).value <= k
    ensures (forall j :: 0 <= j < k ==> !MatchesAt(mem, j, pattern, wildcard)) ==>
              FirstMatch(mem, regionSize, pattern, wildcard) == Some(k)
  {
  }

  /** A wildcard byte in memory is not a wildcard: it matches only a pattern
      byte equal to it or a wildcard in the pattern. */
  lemma WildcardOnlyInPattern(mem: seq<bv8>, k: nat, pattern: seq<bv8>, wildcard: bv8, i: nat)
    requires i < |pattern| && k + i < |mem|
    requires mem[k + i] == wildcard && pattern[i] != wildcard
    ensures !MatchesAt(mem, k, pattern, wildcard)
  {
  }

  // ---------------------------------------------------------------------
  // ModuleFromAddress
  // ---------------------------------------------------------------------

  /** One entry of a process's loader list: the image base, the image size
      and the module's base name. */
  datatype LoaderEntry = LoaderEntry(dllBase: u64, imageSize: u64, baseDllName: string)

  /** The part of a process environment block the lookup reads: the loader
      data, absent until the loader has run, as its in-load-order module list. */
  datatype Peb = Peb(ldr: Option<seq<LoaderEntry>>)

  predicate ContainsAddress(entry: LoaderEntry, address: u64)
  {
    IsInsideRangeInclusive(address, entry.dllBase, entry.imageSize)
  }

  /** The position of the first module, in list order, whose image contains
      the address. */
  function FirstModuleContaining(modules: seq<LoaderEntry>, address: u64): (r: Option<nat>)
    ensures r.Some? ==> && r.value < |modules|
                        && ContainsAddress(modules[r.value], address)
                        && forall j :: 0 <= j < r.value ==> !ContainsAddress(modules[j], address)
    ensures r.None? ==> forall j :: 0 <= j < |modules| ==> !ContainsAddress(modules[j], address)
  {
    if modules == [] then None
    else match FirstModuleContaining(modules[..|modules| - 1], address)
      case Some(k) => Some(k)
      case None =>
        if ContainsAddress(modules[|modules| - 1], address) then Some(|modules| - 1) else None
  }

  /** Walks the loader list of a process and returns the base of the first
      module whose image `[DllBase, DllBase + ImageSize]` contains the
      address, together with the name copied into `out_name`; NULL (0) and
      nothing copied when the PEB or its loader data is missing or no module
      matches. */
  method ModuleFromAddress(peb: Option<Peb>, address: u64) returns (moduleBase: u64, copiedName: Option<string>)
    ensures (peb.None? || peb.value.ldr.None?) ==> moduleBase == 0 && copiedName == None
    ensures peb.Some? && peb.value.ldr.Some? ==>
              var modules := peb.value.ldr.value;
              match FirstModuleContaining(modules, address)
              case Some(k) => moduleBase == modules[k].dllBase && copiedName == Some(modules[k].baseDllName)
              case None => moduleBase == 0 && copiedName == None
  {
    if peb.None? {
      return 0, None;
    }
    if peb.value.ldr.None? {
      return 0, None;
    }
    var modules := peb.value.ldr.value;
    var cursor := 0;
    while cursor < |modules|
      invariant cursor <= |modules|
      invariant forall j :: 0 <= j < cursor ==> !ContainsAddress(modules[j], address)
    {
      var entry := modules[cursor];
      if entry.dllBase <= address && address <= Wrap64(entry.dllBase + entry.imageSize) {
        return entry.dllBase, Some(entry.baseDllName);
      }
      cursor := cursor + 1;
    }
    return 0, None;
  }

  // ---------------------------------------------------------------------
  // DisableWP / EnableWP
  // ---------------------------------------------------------------------

  /** CR0.WP, bit 16: when set, supervisor writes to read-only pages fault. */
  const CR0_WP: bv64 := 0x1_0000

  /** The mask `DisableWP` applies: bit 16 cleared, every other bit kept. */
  function WithoutWriteProtect(cr0: bv64): (r: bv64)
    ensures r & CR0_WP == 0
    ensures r | CR0_WP == cr0 | CR0_WP
  {
    cr0 & 0xffff_ffff_fffe_ffff
  }

  /** The mask `EnableWP` applies: bit 16 set, every other bit kept. */
  function WithWriteProtect(cr0: bv64): (r: bv64)
    ensures r & CR0_WP == CR0_WP
    ensures r & !CR0_WP == cr0 & !CR0_WP
  {
    cr0 | 0x1_0000
  }

  /** Enabling after disabling restores a CR0 that had WP set. */
  lemma WriteProtectRoundTrip(cr0: bv64)
    requires cr0 & CR0_WP == CR0_WP
    ensures WithWriteProtect(WithoutWriteProtect(cr0)) == cr0
  {
  }

  /** The control register the write-protect toggles read and rewrite. */
  class Processor {
    var cr0: bv64

    constructor (cr0: bv64)
      ensures this.cr0 == cr0
    {
      this.cr0 := cr0;
    }

    /** Reads CR0, clears WP and writes it back. */
    method DisableWP()
      modifies this
      ensures cr0 == WithoutWriteProtect(old(cr0))
    {
      var value := cr0;
      value := value & 0xffff_ffff_fffe_ffff;
      cr0 := value;
    }

    /** Reads CR0, sets WP and writes it back. */
    method EnableWP()
      modifies this
      ensures cr0 == WithWriteProtect(old(cr0))
    {
      var value := cr0;
      value := value | 0x1_0000;
      cr0 := value;
    }
  }
}
