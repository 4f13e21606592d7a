/**
 * `xnu_setup_env`: fill the boot-argument record the kernel starts with,
 * then patch the device tree (DTB) already loaded into guest memory so that
 * it describes the ramdisk and the trust cache.  Each of the two patches
 * takes the first property whose name is a placeholder
 * (`MemoryMapReserved-0`, `MemoryMapReserved-1`), renames it and writes the
 * region's guest-physical address and size into its value.
 */
module XnuEnv {
  import opened Bytes
  import opened XnuAddr
  import opened XnuData
  import opened GuestMemory
  import opened Options

  const RAMDISK_PLACEHOLDER: seq<byte> := Ascii("MemoryMapReserved-0")
  const RAMDISK_NAME: seq<byte> := Ascii("RAMDisk")
  const TRUST_CACHE_PLACEHOLDER: seq<byte> := Ascii("MemoryMapReserved-1")
  const TRUST_CACHE_NAME: seq<byte> := Ascii("TrustCache")

  /** A device-tree property's name field comes before its value. */
  predicate PropertyLayoutValid(plat: Platform)
  {
    plat.propNameLength <= plat.propValueOffset
  }

  /** The bytes of a property record the patch touches: the name field and
      the two value words. */
  function PropSpan(plat: Platform): nat
  {
    if plat.propNameLength <= plat.propValueOffset + 16 then plat.propValueOffset + 16 else plat.propNameLength
  }

  /** Every offset of a window of `count` bytes at `base` can be compared
      against a name over `n` bytes. */
  predicate SearchFits(len: nat, base: nat, count: nat, n: nat)
  {
    count == 0 || base + count - 1 + n <= len
  }

  /** Every offset of the DTB can start a whole property record. */
  predicate DtbFits(len: nat, dtbOff: nat, dtbSize: nat, plat: Platform)
  {
    dtbSize == 0 || dtbOff + dtbSize - 1 + PropSpan(plat) <= len
  }

  /** `strncmp(mem + base + i, name, n) == 0`. */
  predicate NamedAt(mem: seq<byte>, base: nat, i: nat, name: seq<byte>, n: nat)
    requires base + i + n <= |mem|
  {
    StrNCmpEq(mem, base + i, name, n)
  }

  /** The first offset `i` in `[from, count)` at which `strncmp(mem + base +
      i, name, n) == 0`, if any. */
  function FirstMatch(mem: seq<byte>, base: nat, from: nat, count: nat, name: seq<byte>, n: nat): (r: Option<nat>)
    requires SearchFits(|mem|, base, count, n)
    ensures r.Some? ==> from <= r.value < count && NamedAt(mem, base, r.value, name, n)
    ensures r.Some? ==> forall j :: from <= j < r.value ==> !NamedAt(mem, base, j, name, n)
    ensures r.None? ==> forall j :: from <= j < count ==> !NamedAt(mem, base, j, name, n)
    decreases count - from
  {
    if from >= count then None
    else if NamedAt(mem, base, from, name, n) then Some(from)
    else FirstMatch(mem, base, from + 1, count, name, n)
  }

  /** The search loop of `xnu_setup_env`: the first offset of the DTB at
      which a property named `name` starts. */
  method FindProperty(mem: array<byte>, base: nat, count: nat, name: seq<byte>, n: nat) returns (found: Option<nat>)
    requires SearchFits(mem.Length, base, count, n)
    ensures found == FirstMatch(mem[..], base, 0, count, name, n)
  {
    found := None;
    var i := 0;
    while i < count
      invariant i <= count
      invariant FirstMatch(mem[..], base, 0, count, name, n) == FirstMatch(mem[..], base, i, count, name, n)
    {
      if NamedAt(mem[..], base, i, name, n) {
        found := Some(i);
        return;
      }
      i := i + 1;
    }
  }

  /** The property record at `at` renamed to `name` (NUL-padded over the
      whole name field) with value words `w0`, `w1`. */
  function PatchedProperty(mem: seq<byte>, at: nat, name: seq<byte>, plat: Platform, w0: u64, w1: u64): (r: seq<byte>)
    requires at + PropSpan(plat) <= |mem|
    ensures |r| == |mem|
  {
    var named := Splice(mem, at, StrNCpy(name, plat.propNameLength));
    var value := at + plat.propValueOffset;
    WriteU64(WriteU64(named, value, w0), value + 8, w1)
  }

  /** Rename the property record at `at` and store its two value words. */
  method PatchProperty(mem: array<byte>, at: nat, name: seq<byte>, plat: Platform, w0: u64, w1: u64)
    requires at + PropSpan(plat) <= mem.Length
    modifies mem
    ensures mem[..] == PatchedProperty(old(mem[..]), at, name, plat, w0, w1)
  {
    Store(mem, at, StrNCpy(name, plat.propNameLength));
    var value := at + plat.propValueOffset;
    StoreU64(mem, value, w0);
    StoreU64(mem, value + 8, w1);
  }

  /** A patched record reads back as written: the new name, NUL-padded, then
      the two words; no byte outside the name field and the two words
      changes. */
  lemma PatchedPropertyReadBack(mem: seq<byte>, at: nat, name: seq<byte>, plat: Platform, w0: u64, w1: u64)
    requires PropertyLayoutValid(plat)
    requires at + PropSpan(plat) <= |mem|
    ensures var r := PatchedProperty(mem, at, name, plat, w0, w1);
      && r[at..at + plat.propNameLength] == StrNCpy(name, plat.propNameLength)
      && ReadU64(r, at + plat.propValueOffset) == w0
      && ReadU64(r, at + plat.propValueOffset + 8) == w1
      && forall k :: (0 <= k < |mem| && !(at <= k < at + plat.propNameLength) &&
           !(at + plat.propValueOffset <= k < at + plat.propValueOffset + 16)) ==> r[k] == mem[k]
  {
    var n := plat.propNameLength;
    var value := at + plat.propValueOffset;
    var named := Splice(mem, at, StrNCpy(name, n));
    var first := WriteU64(named, value, w0);
    var r := WriteU64(first, value + 8, w1);
    ReadAfterWriteU64(named, value, w0);
    ReadAfterWriteU64(first, value + 8, w1);
    assert r[value..value + 8] == first[value..value + 8];
    assert r[at..at + n] == named[at..at + n];
  }

  /** The DTB, `dtbSize` bytes at `dtbOff` of guest memory `mem`, with its
      first property named `placeholder` renamed to `name` and given the
      value words `w0`, `w1`; `None` when no property has that name. */
  function PatchFirst(mem: seq<byte>, dtbOff: nat, dtbSize: nat, placeholder: seq<byte>, name: seq<byte>,
                      plat: Platform, w0: u64, w1: u64): (r: Option<seq<byte>>)
    requires DtbFits(|mem|, dtbOff, dtbSize, plat)
    ensures r.Some? ==> |r.value| == |mem|
  {
    match FirstMatch(mem, dtbOff, 0, dtbSize, placeholder, plat.propNameLength)
    case None => None
    case Some(i) => Some(PatchedProperty(mem, dtbOff + i, name, plat, w0, w1))
  }

  /** The DTB side of `xnu_setup_env` on guest memory `mem`: the return code
      and the memory after it. */
  function SetupDtb(mem: seq<byte>, dtbOff: nat, dtbSize: nat, plat: Platform, ramdisk: (u64, u64), tc: (u64, u64))
    : (int, seq<byte>)
    requires DtbFits(|mem|, dtbOff, dtbSize, plat)
  {
    match PatchFirst(mem, dtbOff, dtbSize, RAMDISK_PLACEHOLDER, RAMDISK_NAME, plat, ramdisk.0, ramdisk.1)
    case None => (-ENOENT, mem)
    case Some(patched) =>
      match PatchFirst(patched, dtbOff, dtbSize, TRUST_CACHE_PLACEHOLDER, TRUST_CACHE_NAME, plat, tc.0, tc.1)
      case None => (-ENOENT, patched)
      case Some(final) => (0, final)
  }

  /** A patch that finds its placeholder patched the first property with
      that name. */
  lemma PatchFirstFound(mem: seq<byte>, dtbOff: nat, dtbSize: nat, placeholder: seq<byte>, name: seq<byte>,
                        plat: Platform, w0: u64, w1: u64) returns (i: nat)
    requires DtbFits(|mem|, dtbOff, dtbSize, plat)
    requires PatchFirst(mem, dtbOff, dtbSize, placeholder, name, plat, w0, w1).Some?
    ensures i < dtbSize && dtbOff + i + PropSpan(plat) <= |mem|
    ensures NamedAt(mem, dtbOff, i, placeholder, plat.propNameLength)
    ensures forall k :: 0 <= k < i ==> !NamedAt(mem, dtbOff, k, placeholder, plat.propNameLength)
    ensures PatchFirst(mem, dtbOff, dtbSize, placeholder, name, plat, w0, w1).value
      == PatchedProperty(mem, dtbOff + i, name, plat, w0, w1)
  {
    i := FirstMatch(mem, dtbOff, 0, dtbSize, placeholder, plat.propNameLength).value;
  }

  /** With no property named `MemoryMapReserved-0` in the DTB the setup
      fails with `-ENOENT` and guest memory is left as it was. */
  lemma SetupDtbNoRamdiskNode(mem: seq<byte>, dtbOff: nat, dtbSize: nat, plat: Platform, ramdisk: (u64, u64), tc: (u64, u64))
    requires DtbFits(|mem|, dtbOff, dtbSize, plat)
    requires forall i :: 0 <= i < dtbSize ==> !NamedAt(mem, dtbOff, i, RAMDISK_PLACEHOLDER, plat.propNameLength)
    ensures SetupDtb(mem, dtbOff, dtbSize, plat, ramdisk, tc) == (-ENOENT, mem)
  {
    if PatchFirst(mem, dtbOff, dtbSize, RAMDISK_PLACEHOLDER, RAMDISK_NAME, plat, ramdisk.0, ramdisk.1).Some? {
      var i := PatchFirstFound(mem, dtbOff, dtbSize, RAMDISK_PLACEHOLDER, RAMDISK_NAME, plat, ramdisk.0, ramdisk.1);
      assert false;
    }
  }

  /** Patching the record at `q` leaves every run of bytes that does not
      overlap it as it was. */
  lemma PatchKeeps(mem: seq<byte>, q: nat, b: seq<byte>, b0: u64, b1: u64, plat: Platform, x: nat, len: nat)
    requires PropertyLayoutValid(plat)
    requires q + PropSpan(plat) <= |mem| && x + len <= |mem|
    requires x + len <= q || q + PropSpan(plat) <= x
    ensures PatchedProperty(mem, q, b, plat, b0, b1)[x..x + len] == mem[x..x + len]
  {
    var r := PatchedProperty(mem, q, b, plat, b0, b1);
    PatchedPropertyReadBack(mem, q, b, plat, b0, b1);
    assert forall k :: x <= k < x + len ==> r[k] == mem[k];
  }

  /** Two records patched one after the other, at `p` and then at `q`: when
      they do not share bytes, the first still reads back as written. */
  lemma FirstPatchSurvives(mem: seq<byte>, p: nat, a: seq<byte>, a0: u64, a1: u64, q: nat, b: seq<byte>, b0: u64, b1: u64, plat: Platform)
    requires PropertyLayoutValid(plat)
    requires p + PropSpan(plat) <= |mem| && q + PropSpan(plat) <= |mem|
    requires p + PropSpan(plat) <= q || q + PropSpan(plat) <= p
    ensures var r := PatchedProperty(PatchedProperty(mem, p, a, plat, a0, a1), q, b, plat, b0, b1);
      && r[p..p + plat.propNameLength] == StrNCpy(a, plat.propNameLength)
      && ReadU64(r, p + plat.propValueOffset) == a0
      && ReadU64(r, p + plat.propValueOffset + 8) == a1
  {
    var first := PatchedProperty(mem, p, a, plat, a0, a1);
    var v := p + plat.propValueOffset;
    PatchedPropertyReadBack(mem, p, a, plat, a0, a1);
    PatchKeeps(first, q, b, b0, b1, plat, p, plat.propNameLength);
    PatchKeeps(first, q, b, b0, b1, plat, v, 8);
    PatchKeeps(first, q, b, b0, b1, plat, v + 8, 8);
  }

  /** Two records patched one after the other change no byte outside the
      two records. */
  lemma TwoPatchesFrame(mem: seq<byte>, p: nat, a: seq<byte>, a0: u64, a1: u64, q: nat, b: seq<byte>, b0: u64, b1: u64, plat: Platform)
    requires PropertyLayoutValid(plat)
    requires p + PropSpan(plat) <= |mem| && q + PropSpan(plat) <= |mem|
    ensures var r := PatchedProperty(PatchedProperty(mem, p, a, plat, a0, a1), q, b, plat, b0, b1);
      forall k :: 0 <= k < |mem| && !(p <= k < p + PropSpan(plat)) && !(q <= k < q + PropSpan(plat)) ==> r[k] == mem[k]
  {
    PatchedPropertyReadBack(mem, p, a, plat, a0, a1);
    PatchedPropertyReadBack(PatchedProperty(mem, p, a, plat, a0, a1), q, b, plat, b0, b1);
  }

  /** A successful setup patched the first `MemoryMapReserved-0` property of
      the DTB (offset `i`) as `RAMDisk`, then the first `MemoryMapReserved-1`
      property (offset `j`) of the DTB as that first patch left it as
      `TrustCache`; `FirstPatchSurvives`, `TwoPatchesFrame` and
      `PatchedPropertyReadBack` say what the two patches leave in memory. */
  lemma SetupDtbPatched(mem: seq<byte>, dtbOff: nat, dtbSize: nat, plat: Platform, ramdisk: (u64, u64), tc: (u64, u64))
    returns (i: nat, j: nat)
    requires DtbFits(|mem|, dtbOff, dtbSize, plat)
    requires SetupDtb(mem, dtbOff, dtbSize, plat, ramdisk, tc).0 == 0
    ensures i < dtbSize && j < dtbSize
    ensures dtbOff + i + PropSpan(plat) <= |mem| && dtbOff + j + PropSpan(plat) <= |mem|
    ensures NamedAt(mem, dtbOff, i, RAMDISK_PLACEHOLDER, plat.propNameLength)
    ensures forall k :: 0 <= k < i ==> !NamedAt(mem, dtbOff, k, RAMDISK_PLACEHOLDER, plat.propNameLength)
    ensures var patched := PatchedProperty(mem, dtbOff + i, RAMDISK_NAME, plat, ramdisk.0, ramdisk.1);
      && NamedAt(patched, dtbOff, j, TRUST_CACHE_PLACEHOLDER, plat.propNameLength)
      && (forall k :: 0 <= k < j ==> !NamedAt(patched, dtbOff, k, TRUST_CACHE_PLACEHOLDER, plat.propNameLength))
      && SetupDtb(mem, dtbOff, dtbSize, plat, ramdisk, tc).1
         == PatchedProperty(patched, dtbOff + j, TRUST_CACHE_NAME, plat, tc.0, tc.1)
  {
    i := PatchFirstFound(mem, dtbOff, dtbSize, RAMDISK_PLACEHOLDER, RAMDISK_NAME, plat, ramdisk.0, ramdisk.1);
    var patched := PatchedProperty(mem, dtbOff + i, RAMDISK_NAME, plat, ramdisk.0, ramdisk.1);
    j := PatchFirstFound(patched, dtbOff, dtbSize, TRUST_CACHE_PLACEHOLDER, TRUST_CACHE_NAME, plat, tc.0, tc.1);
  }

  /** `strncpy(arg->cmdline, cmdline, strlen(cmdline) + 1)` into the zeroed
      array leaves the command line NUL-padded over the whole array. */
  lemma CmdlineFill(cmdline: seq<byte>, capacity: nat)
    requires |cmdline| < capacity
    ensures Splice(Zeros(capacity), 0, StrNCpy(cmdline, |cmdline| + 1)) == StrNCpy(cmdline, capacity)
  {
    var r := Splice(Zeros(capacity), 0, StrNCpy(cmdline, |cmdline| + 1));
    forall k | 0 <= k < capacity
      ensures r[k] == StrNCpy(cmdline, capacity)[k]
    {
      if k <= |cmdline| {
        assert r[k] == r[0..|cmdline| + 1][k];
      }
    }
  }

  /** The kernel reads back the command line it was given. */
  lemma {:induction false} CmdlineReadBack(cmdline: seq<byte>, capacity: nat)
    requires IsCString(cmdline) && |cmdline| < capacity
    ensures CString(StrNCpy(cmdline, capacity)) == cmdline
  {
    var padded := StrNCpy(cmdline, capacity);
    if cmdline != [] {
      assert padded[1..] == StrNCpy(cmdline[1..], capacity - 1);
      CmdlineReadBack(cmdline[1..], capacity - 1);
      assert cmdline == [cmdline[0]] + cmdline[1..];
    }
  }

  /** The boot-argument half of `xnu_setup_env`: `memset` the record, set
      the fields the loader names, and copy the command line with its NUL. */
  method FillBootArgs(vm: Vm, od: XnuOsData, plat: Platform, cmdline: seq<byte>)
    requires IsCString(cmdline) && |cmdline| < plat.cmdlineCapacity
    modifies vm`bootArgs
    ensures vm.bootArgs == BootArgs(
      plat.bootArgsRevision, plat.bootArgsVersion,
      ClearLow30(od.kernelLoadBase), XNU_KERNEL_BASE, vm.memSize, Va2Pa(od.loadEnd),
      od.dtbLoadBase, od.dtbSize, 0, 0,
      StrNCpy(cmdline, plat.cmdlineCapacity))
  {
    var arg := BootArgs(0, 0, 0, 0, 0, 0, 0, 0, 0, 0, Zeros(plat.cmdlineCapacity));
    arg := arg.(revision := plat.bootArgsRevision);
    arg := arg.(version := plat.bootArgsVersion);
    arg := arg.(virtBase := ClearLow30(od.kernelLoadBase));
    arg := arg.(physBase := XNU_KERNEL_BASE);
    arg := arg.(memSize := vm.memSize);
    arg := arg.(topOfKdata := Va2Pa(od.loadEnd));
    arg := arg.(dtb := od.dtbLoadBase);
    arg := arg.(dtbLength := od.dtbSize);
    arg := arg.(memSizeActual := 0);
    arg := arg.(bootFlags := 0);
    CmdlineFill(cmdline, plat.cmdlineCapacity);
    arg := arg.(cmdline := Splice(arg.cmdline, 0, StrNCpy(cmdline, |cmdline| + 1)));
    vm.bootArgs := arg;
  }

  /** One search-and-patch step of `xnu_setup_env`: find the first
      property named `placeholder` in the DTB and, if there is one, rename it
      and store its value words. */
  method PatchFirstProperty(mem: array<byte>, dtbOff: nat, dtbSize: nat, placeholder: seq<byte>, name: seq<byte>,
                            plat: Platform, w0: u64, w1: u64) returns (found: bool)
    requires DtbFits(mem.Length, dtbOff, dtbSize, plat)
    modifies mem
    ensures var r := PatchFirst(old(mem[..]), dtbOff, dtbSize, placeholder, name, plat, w0, w1);
      found == r.Some? && mem[..] == if found then r.value else old(mem[..])
  {
    var dtProp := FindProperty(mem, dtbOff, dtbSize, placeholder, plat.propNameLength);
    if dtProp.None? {
      return false;
    }
    PatchProperty(mem, dtbOff + dtProp.value, name, plat, w0, w1);
    return true;
  }

  /** The device-tree half of `xnu_setup_env`: find and patch the ramdisk
      record, then the trust-cache record, giving up with `-ENOENT` at the
      first one missing. */
  method PatchDtb(vm: Vm, od: XnuOsData, plat: Platform) returns (ret: int)
    requires DtbFits(vm.mmap.Length, LoadOffset(od.dtbLoadBase, vm.mapStart), od.dtbSize, plat)
    modifies vm.mmap
    ensures (ret, vm.mmap[..]) == SetupDtb(old(vm.mmap[..]), LoadOffset(od.dtbLoadBase, vm.mapStart), od.dtbSize, plat,
      (Va2Pa(od.ramdiskLoadBase), od.ramdiskSize), (Va2Pa(od.tcLoadBase), od.tcLoadSize))
  {
    var dtb := LoadOffset(od.dtbLoadBase, vm.mapStart);
    var found := PatchFirstProperty(vm.mmap, dtb, od.dtbSize, RAMDISK_PLACEHOLDER, RAMDISK_NAME, plat,
      Va2Pa(od.ramdiskLoadBase), od.ramdiskSize);
    if !found {
      return -ENOENT;
    }
    found := PatchFirstProperty(vm.mmap, dtb, od.dtbSize, TRUST_CACHE_PLACEHOLDER, TRUST_CACHE_NAME, plat,
      Va2Pa(od.tcLoadBase), od.tcLoadSize);
    if !found {
      return -ENOENT;
    }
    return 0;
  }

  /** `xnu_setup_env`: fill the boot arguments, then patch the ramdisk and
      trust-cache records of the DTB at `LOAD_OFFSET(dtb_load_base,
      map_start)` in guest memory.  The command line must be a C string that
      fits the record's array with its NUL. */
  method SetupEnv(vm: Vm, od: XnuOsData, plat: Platform, cmdline: seq<byte>) returns (ret: int)
    requires IsCString(cmdline) && |cmdline| < plat.cmdlineCapacity
    requires DtbFits(vm.mmap.Length, LoadOffset(od.dtbLoadBase, vm.mapStart), od.dtbSize, plat)
    modifies vm`bootArgs, vm.mmap
    ensures vm.bootArgs == BootArgs(
      plat.bootArgsRevision, plat.bootArgsVersion,
      ClearLow30(od.kernelLoadBase), XNU_KERNEL_BASE, vm.memSize, Va2Pa(od.loadEnd),
      od.dtbLoadBase, od.dtbSize, 0, 0,
      StrNCpy(cmdline, plat.cmdlineCapacity))
    ensures (ret, vm.mmap[..]) == SetupDtb(old(vm.mmap[..]), LoadOffset(od.dtbLoadBase, vm.mapStart), od.dtbSize, plat,
      (Va2Pa(od.ramdiskLoadBase), od.ramdiskSize), (Va2Pa(od.tcLoadBase), od.tcLoadSize))
  {
    FillBootArgs(vm, od, plat, cmdline);
    ret := PatchDtb(vm, od, plat);
  }
}
