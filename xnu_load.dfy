/**
 * `xnu_load_image`: copy the kernel's segments, the ramdisk, the DTB and the
 * trust cache from their host files into guest memory, zero-filling the
 * part of each segment that the file does not supply (its BSS), and add up
 * the four return codes.
 */
module XnuLoad {
  import opened Bytes
  import opened XnuAddr
  import opened XnuData
  import opened XnuMachO
  import opened GuestMemory

  function Max(a: nat, b: nat): nat
  {
    if a >= b then a else b
  }

  /** The bytes `read(fd, buf, size)` delivers after `lseek(fd, off,
      SEEK_SET)` on a file with these contents: `size` bytes, fewer when the
      file ends first, none from past its end. */
  function ReadAt(contents: seq<byte>, off: nat, size: nat): (bs: seq<byte>)
    ensures |bs| <= size
    ensures off + size <= |contents| ==> bs == contents[off..off + size]
    ensures off >= |contents| ==> bs == []
  {
    if off >= |contents| then [] else contents[off..Min(off + size, |contents|)]
  }

  /** Guest memory after `xnu_load_raw_data(fd, mmap, offset, off, size)`:
      nothing is read for a size of 0. */
  function RawLoad(mem: seq<byte>, contents: seq<byte>, offset: nat, off: nat, size: nat): (r: seq<byte>)
    requires size > 0 ==> offset + size <= |mem|
    ensures |r| == |mem|
  {
    if size == 0 then mem else Splice(mem, offset, ReadAt(contents, off, size))
  }

  /** A raw load of size 0 leaves memory as it was; otherwise the bytes
      `read` delivers sit at `offset` and no other byte changes. */
  lemma RawLoadContents(mem: seq<byte>, contents: seq<byte>, offset: nat, off: nat, size: nat)
    requires size > 0 ==> offset + size <= |mem|
    ensures var r, got := RawLoad(mem, contents, offset, off, size), ReadAt(contents, off, size);
      && (size == 0 ==> r == mem)
      && (size > 0 ==> r[offset..offset + |got|] == got)
      && forall k :: 0 <= k < |mem| && !(size > 0 && offset <= k < offset + |got|) ==> r[k] == mem[k]
  {
  }

  /** `xnu_load_raw_data` on an opened file; it reports success, also when
      the file ends before `size` bytes. */
  method LoadRawData(mem: array<byte>, f: HostFile, offset: nat, off: nat, size: nat) returns (ret: int)
    requires f.Opened? && (size > 0 ==> offset + size <= mem.Length)
    modifies mem
    ensures ret == 0
    ensures mem[..] == RawLoad(old(mem[..]), f.contents, offset, off, size)
  {
    if size == 0 {
      return 0;
    }
    var bs := ReadAt(f.contents, off, size);
    Store(mem, offset, bs);
    return 0;
  }

  /** Where a segment's bytes start in the mapping that begins at
      guest-physical `mapStart`. */
  function SegmentOffset(s: Segment, mapStart: u64): u64
  {
    LoadOffset(s.vmAddr, mapStart)
  }

  /** The bytes of the mapping a segment occupies: its file part and its
      zero-filled tail. */
  function SegmentSpan(s: Segment): nat
  {
    Max(s.fileSize, s.vmSize)
  }

  predicate SegmentFits(s: Segment, mapStart: u64, len: nat)
  {
    SegmentOffset(s, mapStart) + SegmentSpan(s) <= len
  }

  predicate SegmentsFitMemory(segs: seq<Segment>, mapStart: u64, len: nat)
  {
    forall k :: 0 <= k < |segs| ==> SegmentFits(segs[k], mapStart, len)
  }

  /** One iteration of the loop of `xnu_load_kernel_image`: copy the
      segment's file bytes, then zero the rest of its `vm_size`. */
  function LoadSegment(mem: seq<byte>, contents: seq<byte>, s: Segment, mapStart: u64): (r: seq<byte>)
    requires SegmentFits(s, mapStart, |mem|)
    ensures |r| == |mem|
  {
    var offset := SegmentOffset(s, mapStart);
    var loaded := RawLoad(mem, contents, offset, s.fileOff, s.fileSize);
    if s.vmSize > s.fileSize then Splice(loaded, offset + s.fileSize, Zeros(s.vmSize - s.fileSize)) else loaded
  }

  /** The segments loaded one after the other, in list order. */
  function LoadSegments(mem: seq<byte>, contents: seq<byte>, segs: seq<Segment>, mapStart: u64): (r: seq<byte>)
    requires SegmentsFitMemory(segs, mapStart, |mem|)
    ensures |r| == |mem|
    decreases |segs|
  {
    if segs == [] then mem
    else LoadSegments(LoadSegment(mem, contents, segs[0], mapStart), contents, segs[1..], mapStart)
  }

  /** A loaded segment holds its file bytes (as far as the file has them)
      followed by zeros up to `vm_size`; the rest of guest memory is as it
      was. */
  lemma LoadSegmentContents(mem: seq<byte>, contents: seq<byte>, s: Segment, mapStart: u64)
    requires SegmentFits(s, mapStart, |mem|)
    ensures var r, offset := LoadSegment(mem, contents, s, mapStart), SegmentOffset(s, mapStart);
      && (forall k :: offset + s.fileSize <= k < offset + s.vmSize ==> r[k] == 0)
      && (var got := ReadAt(contents, s.fileOff, s.fileSize); r[offset..offset + |got|] == got)
      && (forall k :: 0 <= k < |mem| && !(offset <= k < offset + SegmentSpan(s)) ==> r[k] == mem[k])
  {
    var offset := SegmentOffset(s, mapStart);
    var got := ReadAt(contents, s.fileOff, s.fileSize);
    var loaded := RawLoad(mem, contents, offset, s.fileOff, s.fileSize);
    var r := LoadSegment(mem, contents, s, mapStart);
    if s.fileSize > 0 {
      assert loaded[offset..offset + |got|] == got;
    }
    if s.vmSize > s.fileSize {
      assert r[offset..offset + |got|] == loaded[offset..offset + |got|];
    }
  }

  /** The segment at `k` and the one at `j` share no byte of the mapping. */
  predicate SegmentsApart(segs: seq<Segment>, mapStart: u64, k: nat, j: nat)
    requires k < |segs| && j < |segs|
  {
    var a, b := segs[k], segs[j];
    SegmentOffset(a, mapStart) + SegmentSpan(a) <= SegmentOffset(b, mapStart)
    || SegmentOffset(b, mapStart) + SegmentSpan(b) <= SegmentOffset(a, mapStart)
  }

  /** Loading the segments changes no byte outside the segments' spans. */
  lemma {:induction false} LoadSegmentsFrame(mem: seq<byte>, contents: seq<byte>, segs: seq<Segment>, mapStart: u64, x: nat)
    requires SegmentsFitMemory(segs, mapStart, |mem|)
    requires x < |mem|
    requires forall k :: 0 <= k < |segs| ==>
      !(SegmentOffset(segs[k], mapStart) <= x < SegmentOffset(segs[k], mapStart) + SegmentSpan(segs[k]))
    ensures LoadSegments(mem, contents, segs, mapStart)[x] == mem[x]
    decreases |segs|
  {
    if segs != [] {
      LoadSegmentContents(mem, contents, segs[0], mapStart);
      var next := LoadSegment(mem, contents, segs[0], mapStart);
      assert forall k :: 0 <= k < |segs| - 1 ==> segs[1..][k] == segs[k + 1];
      LoadSegmentsFrame(next, contents, segs[1..], mapStart, x);
    }
  }

  /** The BSS of the segment at `k` is still zero once the whole list is
      loaded, unless a later segment overlaps it. */
  lemma {:induction false} LoadSegmentsKeepBss(mem: seq<byte>, contents: seq<byte>, segs: seq<Segment>, mapStart: u64, k: nat, x: nat)
    requires SegmentsFitMemory(segs, mapStart, |mem|)
    requires k < |segs|
    requires forall j :: k < j < |segs| ==> SegmentsApart(segs, mapStart, k, j)
    requires SegmentOffset(segs[k], mapStart) + segs[k].fileSize <= x < SegmentOffset(segs[k], mapStart) + segs[k].vmSize
    ensures LoadSegments(mem, contents, segs, mapStart)[x] == 0
    decreases |segs|
  {
    var next := LoadSegment(mem, contents, segs[0], mapStart);
    var rest := segs[1..];
    assert forall j :: 0 <= j < |rest| ==> rest[j] == segs[j + 1];
    if k == 0 {
      LoadSegmentContents(mem, contents, segs[0], mapStart);
      forall j | 0 <= j < |rest|
        ensures !(SegmentOffset(rest[j], mapStart) <= x < SegmentOffset(rest[j], mapStart) + SegmentSpan(rest[j]))
      {
        assert SegmentsApart(segs, mapStart, 0, j + 1);
      }
      LoadSegmentsFrame(next, contents, rest, mapStart, x);
    } else {
      var k' := k - 1;
      forall j | k' < j < |rest|
        ensures SegmentsApart(rest, mapStart, k', j)
      {
        assert SegmentsApart(segs, mapStart, k, j + 1);
      }
      LoadSegmentsKeepBss(next, contents, rest, mapStart, k - 1, x);
    }
  }

  /** The body of the loop of `xnu_load_kernel_image`, for segment `cmd`. */
  method LoadSegmentInto(mem: array<byte>, f: HostFile, cmd: Segment, mapStart: u64)
    requires f.Opened? && SegmentFits(cmd, mapStart, mem.Length)
    modifies mem
    ensures mem[..] == LoadSegment(old(mem[..]), f.contents, cmd, mapStart)
  {
    var offset := LoadOffset(cmd.vmAddr, mapStart);
    var ret := LoadRawData(mem, f, offset, cmd.fileOff, cmd.fileSize);
    if cmd.vmSize > cmd.fileSize {
      ZeroFill(mem, cmd.fileSize + offset, cmd.vmSize - cmd.fileSize);
    }
  }

  /** `xnu_load_kernel_image`: with no kernel file `-ENOENT`; otherwise load
      the segments in list order (which is reverse file order). */
  method LoadKernelImage(vm: Vm, od: XnuOsData, fmt: MachOFormat) returns (ret: int)
    requires od.SegmentsFit(fmt)
    requires vm.kernelFile.Opened? ==> SegmentsFitMemory(od.Segments(fmt), vm.mapStart, vm.mmap.Length)
    modifies vm.mmap
    ensures vm.kernelFile.NotOpened? ==> ret == -ENOENT && vm.mmap[..] == old(vm.mmap[..])
    ensures vm.kernelFile.Opened? ==>
      ret == 0 && vm.mmap[..] == LoadSegments(old(vm.mmap[..]), vm.kernelFile.contents, od.Segments(fmt), vm.mapStart)
  {
    if vm.kernelFile.NotOpened? {
      return -ENOENT;
    }
    ghost var segs := od.Segments(fmt);
    ghost var want := LoadSegments(vm.mmap[..], vm.kernelFile.contents, segs, vm.mapStart);
    var i := 0;
    while i < |od.root|
      invariant i <= |od.root|
      invariant SegmentsFitMemory(segs[i..], vm.mapStart, vm.mmap.Length)
      invariant LoadSegments(vm.mmap[..], vm.kernelFile.contents, segs[i..], vm.mapStart) == want
    {
      var cmd := fmt.SegmentAt(od.metaBuf, od.root[i]);
      ghost var before := vm.mmap[..];
      assert cmd == segs[i..][0];
      LoadSegmentInto(vm.mmap, vm.kernelFile, cmd, vm.mapStart);
      assert segs[i..][1..] == segs[i + 1..];
      assert LoadSegments(before, vm.kernelFile.contents, segs[i..], vm.mapStart)
        == LoadSegments(vm.mmap[..], vm.kernelFile.contents, segs[i + 1..], vm.mapStart);
      i := i + 1;
    }
    return 0;
  }

  /** The bytes of a whole-file region of `size` bytes at kernel-virtual
      `base` fit the mapping. */
  predicate RegionFits(base: u64, size: u64, mapStart: u64, len: nat)
  {
    LoadOffset(base, mapStart) + size <= len
  }

  /** `xnu_load_ramdisk`. */
  method LoadRamdisk(vm: Vm, od: XnuOsData) returns (ret: int)
    requires vm.ramdiskFile.Opened? && od.ramdiskSize > 0 ==> RegionFits(od.ramdiskLoadBase, od.ramdiskSize, vm.mapStart, vm.mmap.Length)
    modifies vm.mmap
    ensures vm.ramdiskFile.NotOpened? ==> ret == -ENOENT && vm.mmap[..] == old(vm.mmap[..])
    ensures vm.ramdiskFile.Opened? ==> ret == 0
    ensures vm.ramdiskFile.Opened? ==> (vm.mmap[..] ==
      RawLoad(old(vm.mmap[..]), vm.ramdiskFile.contents, LoadOffset(od.ramdiskLoadBase, vm.mapStart), 0, od.ramdiskSize))
  {
    if vm.ramdiskFile.NotOpened? {
      return -ENOENT;
    }
    ret := LoadRawData(vm.mmap, vm.ramdiskFile, LoadOffset(od.ramdiskLoadBase, vm.mapStart), 0, od.ramdiskSize);
  }

  /** `xnu_load_dtb`. */
  method LoadDtb(vm: Vm, od: XnuOsData) returns (ret: int)
    requires vm.dtbFile.Opened? && od.dtbSize > 0 ==> RegionFits(od.dtbLoadBase, od.dtbSize, vm.mapStart, vm.mmap.Length)
    modifies vm.mmap
    ensures vm.dtbFile.NotOpened? ==> ret == -ENOENT && vm.mmap[..] == old(vm.mmap[..])
    ensures vm.dtbFile.Opened? ==> ret == 0
    ensures vm.dtbFile.Opened? ==> (vm.mmap[..] ==
      RawLoad(old(vm.mmap[..]), vm.dtbFile.contents, LoadOffset(od.dtbLoadBase, vm.mapStart), 0, od.dtbSize))
  {
    if vm.dtbFile.NotOpened? {
      return -ENOENT;
    }
    ret := LoadRawData(vm.mmap, vm.dtbFile, LoadOffset(od.dtbLoadBase, vm.mapStart), 0, od.dtbSize);
  }

  /** `xnu_load_tc`: the trust-cache file was opened before the VM was set up. */
  method LoadTrustCache(vm: Vm, od: XnuOsData) returns (ret: int)
    requires od.tcFile.Opened?
    requires od.tcLoadSize > 0 ==> RegionFits(od.tcLoadBase, od.tcLoadSize, vm.mapStart, vm.mmap.Length)
    modifies vm.mmap
    ensures ret == 0 && vm.mmap[..] ==
      RawLoad(old(vm.mmap[..]), od.tcFile.contents, LoadOffset(od.tcLoadBase, vm.mapStart), 0, od.tcLoadSize)
  {
    ret := LoadRawData(vm.mmap, od.tcFile, LoadOffset(od.tcLoadBase, vm.mapStart), 0, od.tcLoadSize);
  }

  /** The code a loader step returns: 0, or `-ENOENT` when its file was not
      opened. */
  function Status(f: HostFile): int
  {
    if f.Opened? then 0 else -ENOENT
  }

  /** How many of the files are missing. */
  function Missing(files: seq<HostFile>): (n: nat)
    ensures n <= |files|
  {
    if files == [] then 0 else (if files[0].Opened? then 0 else 1) + Missing(files[1..])
  }

  /** The sum of the step codes is `-ENOENT` times the number of missing
      files, so it is 0 exactly when every file is there. */
  lemma {:induction false} StatusSum(files: seq<HostFile>)
    ensures SumStatus(files) == -ENOENT * Missing(files)
    ensures SumStatus(files) == 0 <==> forall k :: 0 <= k < |files| ==> files[k].Opened?
  {
    if files != [] {
      StatusSum(files[1..]);
      if files[0].Opened? {
        assert forall k :: 1 <= k < |files| ==> files[k] == files[1..][k - 1];
      }
    }
  }

  function SumStatus(files: seq<HostFile>): int
  {
    if files == [] then 0 else Status(files[0]) + SumStatus(files[1..])
  }

  /** The three codes `xnu_load_image` can see fail, added up. */
  lemma LoadStatus(kernel: HostFile, ramdisk: HostFile, dtb: HostFile)
    ensures var sum := Status(kernel) + Status(ramdisk) + Status(dtb);
      && sum == -ENOENT * Missing([kernel, ramdisk, dtb])
      && (sum == 0 <==> kernel.Opened? && ramdisk.Opened? && dtb.Opened?)
  {
    var files := [kernel, ramdisk, dtb];
    StatusSum(files);
    assert files[1..] == [ramdisk, dtb] && files[1..][1..] == [dtb] && files[1..][1..][1..] == [];
    assert SumStatus(files[1..][1..]) == Status(dtb);
    assert SumStatus(files[1..]) == Status(ramdisk) + Status(dtb);
    assert SumStatus(files) == Status(kernel) + Status(ramdisk) + Status(dtb);
  }

  /** `xnu_load_image`: the four steps in order, their codes added up. */
  method LoadImage(vm: Vm, od: XnuOsData, fmt: MachOFormat) returns (ret: int)
    requires od.SegmentsFit(fmt)
    requires vm.kernelFile.Opened? ==> SegmentsFitMemory(od.Segments(fmt), vm.mapStart, vm.mmap.Length)
    requires vm.ramdiskFile.Opened? && od.ramdiskSize > 0 ==> RegionFits(od.ramdiskLoadBase, od.ramdiskSize, vm.mapStart, vm.mmap.Length)
    requires vm.dtbFile.Opened? && od.dtbSize > 0 ==> RegionFits(od.dtbLoadBase, od.dtbSize, vm.mapStart, vm.mmap.Length)
    requires od.tcFile.Opened?
    requires od.tcLoadSize > 0 ==> RegionFits(od.tcLoadBase, od.tcLoadSize, vm.mapStart, vm.mmap.Length)
    modifies vm.mmap
    ensures ret == Status(vm.kernelFile) + Status(vm.ramdiskFile) + Status(vm.dtbFile)
    ensures ret == -ENOENT * Missing([vm.kernelFile, vm.ramdiskFile, vm.dtbFile])
    ensures ret == 0 <==> vm.kernelFile.Opened? && vm.ramdiskFile.Opened? && vm.dtbFile.Opened?
    ensures var afterKernel := if vm.kernelFile.Opened?
          then LoadSegments(old(vm.mmap[..]), vm.kernelFile.contents, od.Segments(fmt), vm.mapStart)
          else old(vm.mmap[..]);
      var afterRamdisk := if vm.ramdiskFile.Opened?
          then RawLoad(afterKernel, vm.ramdiskFile.contents, LoadOffset(od.ramdiskLoadBase, vm.mapStart), 0, od.ramdiskSize)
          else afterKernel;
      var afterDtb := if vm.dtbFile.Opened?
          then RawLoad(afterRamdisk, vm.dtbFile.contents, LoadOffset(od.dtbLoadBase, vm.mapStart), 0, od.dtbSize)
          else afterRamdisk;
      vm.mmap[..] == RawLoad(afterDtb, od.tcFile.contents, LoadOffset(od.tcLoadBase, vm.mapStart), 0, od.tcLoadSize)
  {
    ghost var mem0 := vm.mmap[..];
    ret := 0;
    var r := LoadKernelImage(vm, od, fmt);
    ghost var afterKernel := vm.mmap[..];
    assert r == Status(vm.kernelFile);
    ret := ret + r;
    r := LoadRamdisk(vm, od);
    ghost var afterRamdisk := vm.mmap[..];
    assert r == Status(vm.ramdiskFile);
    ret := ret + r;
    r := LoadDtb(vm, od);
    ghost var afterDtb := vm.mmap[..];
    assert r == Status(vm.dtbFile);
    ret := ret + r;
    r := LoadTrustCache(vm, od);
    ret := ret + r;
    LoadStatus(vm.kernelFile, vm.ramdiskFile, vm.dtbFile);
    assert afterKernel == if vm.kernelFile.Opened?
      then LoadSegments(mem0, vm.kernelFile.contents, od.Segments(fmt), vm.mapStart) else mem0;
  }
}
