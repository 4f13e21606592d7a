/**
 * The guest address-space layout of `xnu_parse_address_space`: the kernel
 * occupies the extent of its segments, and the ramdisk, the device tree
 * (DTB) and the boot-argument record follow it, each region starting at the
 * next 64 KiB boundary after the previous one; a file that is missing or
 * not a regular file gets a region of size 0.
 */
module XnuLayout {
  import opened Bytes
  import opened XnuAddr
  import opened XnuData
  import opened XnuMachO

  /** The kernel-virtual addresses and sizes the layout assigns. */
  datatype Layout = Layout(
    kernelLoadBase: u64,
    ramdiskLoadBase: u64,
    ramdiskSize: u64,
    dtbLoadBase: u64,
    dtbSize: u64,
    bootargLoadBase: u64,
    loadEnd: u64)

  /** The size `fstat` gives a file the layout counts, 0 for any other. */
  function CountedSize(f: HostFile): (n: u64)
    ensures f.IsRegular() ==> n == |f.contents|
    ensures !f.IsRegular() ==> n == 0
  {
    if f.IsRegular() then f.Size() else 0
  }

  /** A file placed at `base`: the size recorded for it and where the next
      region starts. */
  function Place(base: u64, f: HostFile): (u64, u64)
  {
    if f.IsRegular() then (f.Size(), RoundUp64K(Wrap64(base + f.Size()))) else (0, base)
  }

  /** The layout for a kernel whose segments span `[low, high)`. */
  function AddressSpace(low: u64, high: u64, ramdisk: HostFile, dtb: HostFile, bootArgsSize: u64): Layout
  {
    var (ramdiskSize, dtbBase) := Place(high, ramdisk);
    var (dtbSize, bootargBase) := Place(dtbBase, dtb);
    Layout(low, high, ramdiskSize, dtbBase, dtbSize, bootargBase, RoundUp64K(Wrap64(bootargBase + bootArgsSize)))
  }

  ghost function LayoutOf(od: XnuOsData): Layout
    reads od
  {
    Layout(od.kernelLoadBase, od.ramdiskLoadBase, od.ramdiskSize, od.dtbLoadBase, od.dtbSize,
      od.bootargLoadBase, od.loadEnd)
  }

  /** Without `uint64_t` overflow, a placed file fits between `base` and the
      next region, which starts on a 64 KiB boundary less than 64 KiB past
      the file's end; a file not counted takes no room at all. */
  lemma PlaceBounds(base: u64, f: HostFile)
    requires base + CountedSize(f) <= U64_MODULUS - REGION_ALIGN
    ensures Place(base, f).0 == CountedSize(f)
    ensures base + Place(base, f).0 <= Place(base, f).1 < base + Place(base, f).0 + REGION_ALIGN
    ensures f.IsRegular() ==> Place(base, f).1 % REGION_ALIGN == 0
    ensures !f.IsRegular() ==> Place(base, f).1 == base
  {
    if f.IsRegular() {
      RoundUp64KBounds(base + f.Size());
    }
  }

  /** Without `uint64_t` overflow the regions follow one another without
      overlap: kernel, ramdisk, DTB, boot arguments, and `load_end` is the
      first 64 KiB boundary at or after the end of the boot arguments. */
  lemma LayoutOrdered(low: u64, high: u64, ramdisk: HostFile, dtb: HostFile, bootArgsSize: u64)
    requires low <= high && bootArgsSize > 0
    requires high + CountedSize(ramdisk) + CountedSize(dtb) + bootArgsSize + 3 * REGION_ALIGN <= U64_MODULUS
    ensures var l := AddressSpace(low, high, ramdisk, dtb, bootArgsSize);
      && l.kernelLoadBase <= l.ramdiskLoadBase
      && l.ramdiskLoadBase + l.ramdiskSize <= l.dtbLoadBase
      && l.dtbLoadBase + l.dtbSize <= l.bootargLoadBase
      && l.bootargLoadBase + bootArgsSize <= l.loadEnd < l.bootargLoadBase + bootArgsSize + REGION_ALIGN
      && l.loadEnd % REGION_ALIGN == 0
  {
    var l := AddressSpace(low, high, ramdisk, dtb, bootArgsSize);
    PlaceBounds(high, ramdisk);
    PlaceBounds(l.dtbLoadBase, dtb);
    RoundUp64KBounds(l.bootargLoadBase + bootArgsSize);
  }

  /** The ramdisk region follows the kernel's last byte, the DTB the
      ramdisk's, and a missing file leaves the next region where its own
      would have started. */
  lemma AbsentFilesCollapse(low: u64, high: u64, ramdisk: HostFile, dtb: HostFile, bootArgsSize: u64)
    ensures var l := AddressSpace(low, high, ramdisk, dtb, bootArgsSize);
      && l.ramdiskSize == CountedSize(ramdisk)
      && l.dtbSize == CountedSize(dtb)
      && (!ramdisk.IsRegular() ==> l.dtbLoadBase == l.ramdiskLoadBase)
      && (!dtb.IsRegular() ==> l.bootargLoadBase == l.dtbLoadBase)
      && (ramdisk.IsRegular() ==> l.dtbLoadBase == RoundUp64K(Wrap64(l.ramdiskLoadBase + l.ramdiskSize)))
      && (dtb.IsRegular() ==> l.bootargLoadBase == RoundUp64K(Wrap64(l.dtbLoadBase + l.dtbSize)))
  {
  }

  /** Every segment of a kernel whose segment ends do not wrap lies inside
      `[kernel_load_base, ramdisk_load_base)`. */
  lemma KernelRegionCoversSegments(segs: seq<Segment>, ramdisk: HostFile, dtb: HostFile, bootArgsSize: u64)
    requires segs != []
    requires forall k :: 0 <= k < |segs| ==> segs[k].vmAddr + segs[k].vmSize < U64_MODULUS
    ensures var l := AddressSpace(Extent(segs).0, Extent(segs).1, ramdisk, dtb, bootArgsSize);
      && l.kernelLoadBase <= l.ramdiskLoadBase
      && forall k :: 0 <= k < |segs| ==>
           l.kernelLoadBase <= segs[k].vmAddr && segs[k].vmAddr + segs[k].vmSize <= l.ramdiskLoadBase
  {
    ExtentOrdered(segs);
  }

  /** The region assignments of `xnu_parse_address_space`, from the
      kernel's extent `[low, high)` up to `load_end`, with the two `goto`s
      taken when the ramdisk or the DTB is not a regular file. */
  method PlaceRegions(od: XnuOsData, ramdisk: HostFile, dtb: HostFile, bootArgsSize: u64, low: u64, high: u64)
    modifies od`kernelLoadBase, od`ramdiskLoadBase, od`ramdiskSize, od`dtbLoadBase, od`dtbSize
    modifies od`bootargLoadBase, od`loadEnd
    ensures LayoutOf(od) == AddressSpace(low, high, ramdisk, dtb, bootArgsSize)
  {
    od.kernelLoadBase := low;
    od.ramdiskLoadBase := high;

    if !ramdisk.IsRegular() {
      od.dtbLoadBase := od.ramdiskLoadBase;
      od.ramdiskSize := 0;
    } else {
      od.ramdiskSize := ramdisk.Size();
      od.dtbLoadBase := Wrap64(od.ramdiskLoadBase + ramdisk.Size());
      od.dtbLoadBase := RoundUp64K(od.dtbLoadBase);
    }
    assert (od.ramdiskSize, od.dtbLoadBase) == Place(high, ramdisk);

    if !dtb.IsRegular() {
      od.bootargLoadBase := od.dtbLoadBase;
      od.dtbSize := 0;
    } else {
      od.dtbSize := dtb.Size();
      od.bootargLoadBase := Wrap64(od.dtbLoadBase + dtb.Size());
      od.bootargLoadBase := RoundUp64K(od.bootargLoadBase);
    }
    assert (od.dtbSize, od.bootargLoadBase) == Place(od.dtbLoadBase, dtb);

    od.loadEnd := Wrap64(od.bootargLoadBase + bootArgsSize);
    od.loadEnd := RoundUp64K(od.loadEnd);
  }

  /** `xnu_parse_address_space`: lay out the regions behind the kernel's
      segments, then derive the guest's memory window, entry point and
      boot-argument address; the trust cache is placed at the start of the
      mapping. */
  method ParseAddressSpace(vm: Vm, od: XnuOsData, fmt: MachOFormat, plat: Platform)
    requires od.SegmentsFit(fmt)
    modifies od`kernelLoadBase, od`ramdiskLoadBase, od`ramdiskSize, od`dtbLoadBase, od`dtbSize
    modifies od`bootargLoadBase, od`loadEnd, od`tcLoadBase, od`tcLoadSize
    modifies vm`memStart, vm`entry, vm`setupData, vm`mapStart, vm`mapSize
    ensures var extent := Extent(od.Segments(fmt));
      LayoutOf(od) == AddressSpace(extent.0, extent.1, vm.ramdiskFile, vm.dtbFile, plat.bootArgsSize)
    ensures vm.memStart == XNU_KERNEL_BASE
    ensures vm.entry == Va2Pa(od.entryPoint)
    ensures vm.setupData == Va2Pa(od.bootargLoadBase)
    ensures vm.mapStart == Wrap64(plat.memBlockAlign(Va2Pa(od.kernelLoadBase)) - plat.memBlockSize)
    ensures vm.mapSize == Wrap64(Va2Pa(plat.memBlockBAlign(od.loadEnd)) - vm.mapStart)
    ensures od.tcLoadBase == vm.mapStart
    ensures od.tcLoadSize == CountedSize(od.tcFile)
  {
    var low, high := GetMachoHighLow(od, fmt);
    ghost var segs := od.Segments(fmt);
    PlaceRegions(od, vm.ramdiskFile, vm.dtbFile, plat.bootArgsSize, low, high);
    ghost var layout := LayoutOf(od);

    vm.memStart := XNU_KERNEL_BASE;
    vm.entry := Va2Pa(od.entryPoint);
    vm.setupData := Va2Pa(od.bootargLoadBase);

    vm.mapStart := Wrap64(plat.memBlockAlign(Va2Pa(od.kernelLoadBase)) - plat.memBlockSize);
    vm.mapSize := Wrap64(Va2Pa(plat.memBlockBAlign(od.loadEnd)) - vm.mapStart);

    od.tcLoadBase := vm.mapStart;
    od.tcLoadSize := if od.tcFile.IsRegular() then od.tcFile.Size() else 0;
    assert od.Segments(fmt) == segs;
    assert LayoutOf(od) == layout;
  }
}
