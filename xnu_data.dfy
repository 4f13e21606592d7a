/**
 * The state the XNU loader works on: its private record `struct
 * xnu_os_data`, the fields of `struct vm` it reads and writes, the host
 * files it loads, and the constants and structure layouts that come from
 * headers outside this model (they enter as values of `MachOFormat` and
 * `Platform`).
 */
module XnuData {
  import opened Bytes

  const ENOENT: int := 2

  /** A host file as the loader sees it through its descriptor: not opened
      (descriptor `<= 0`), or opened, with `regular` saying whether `fstat`
      succeeded and reported a regular file, and its contents. */
  datatype HostFile = NotOpened | Opened(regular: bool, contents: seq<byte>)
  {
    /** The size a successful `fstat` reports (`st_size`). */
    function Size(): nat
      requires Opened?
    {
      |contents|
    }

    /** True when `fstat` reports a regular file, the case the layout counts. */
    predicate IsRegular()
    {
      Opened? && regular && |contents| < U64_MODULUS
    }
  }

  /** The fields of an `LC_SEGMENT_64` command (`struct segment_cmd64`) the loader reads. */
  datatype Segment = Segment(vmAddr: u64, vmSize: u64, fileOff: u64, fileSize: u64)

  /** The common header of every load command (`struct load_cmd`). */
  datatype LoadCmd = LoadCmd(cmd: u32, cmdSize: u32)

  /** Mach-O command codes and structure layouts, fixed by a header this
      model does not include: `LC_SEGMENT_64`, `LC_UNIXTHREAD`, and how
      `struct load_cmd` and `struct segment_cmd64` are read from bytes. */
  datatype MachOFormat = MachOFormat(
    lcSegment64: u32,
    lcUnixThread: u32,
    loadCmdLen: nat,
    loadCmdOf: seq<byte> -> LoadCmd,
    segmentLen: nat,
    segmentOf: seq<byte> -> Segment)
  {
    /** The two codes are distinct `case` labels of one `switch`. */
    predicate Valid()
    {
      lcSegment64 != lcUnixThread
    }

    function LoadCmdAt(buf: seq<byte>, at: nat): LoadCmd
      requires at + loadCmdLen <= |buf|
    {
      loadCmdOf(buf[at..at + loadCmdLen])
    }

    function SegmentAt(buf: seq<byte>, at: nat): Segment
      requires at + segmentLen <= |buf|
    {
      segmentOf(buf[at..at + segmentLen])
    }

    /** Every offset in `offs` starts a segment command inside `buf`. */
    predicate SegmentsFit(buf: seq<byte>, offs: seq<nat>)
    {
      forall k :: 0 <= k < |offs| ==> offs[k] + segmentLen <= |buf|
    }

    /** The segment commands at `offs`, in the same order. */
    function SegmentsAt(buf: seq<byte>, offs: seq<nat>): (segs: seq<Segment>)
      requires SegmentsFit(buf, offs)
      ensures |segs| == |offs|
    {
      seq(|offs|, k requires 0 <= k < |offs| => SegmentAt(buf, offs[k]))
    }
  }

  /** Constants and layouts of the boot-argument record, the device-tree
      property record and the hypervisor's memory blocks, fixed by headers
      this model does not include. */
  datatype Platform = Platform(
    bootArgsSize: u64,                 // sizeof(struct xnu_arm64_boot_args)
    bootArgsRevision: u16,             // XNU_ARM64_KBOOT_ARGS_REVISION2
    bootArgsVersion: u16,              // XNU_ARM64_KBOOT_ARGS_VERSION
    cmdlineCapacity: nat,              // length of the cmdline array of the boot args
    propNameLength: nat,               // XNU_DT_PROP_NAME_LENGTH
    propValueOffset: nat,              // where `value` sits in struct xnu_dt_node_prop
    memBlockSize: u64,                 // MEM_BLOCK_SIZE
    memBlockAlign: u64 -> u64,         // MEM_BLOCK_ALIGN
    memBlockBAlign: u64 -> u64)        // MEM_BLOCK_BALIGN

  /** The boot-argument record the loader hands to the kernel
      (`struct xnu_arm64_boot_args`), field by field; the fields the loader
      does not name are zero and are not listed. */
  datatype BootArgs = BootArgs(
    revision: u16,
    version: u16,
    virtBase: u64,
    physBase: u64,
    memSize: u64,
    topOfKdata: u64,
    dtb: u64,
    dtbLength: u64,
    memSizeActual: u64,
    bootFlags: u64,
    cmdline: seq<byte>)

  /** `struct xnu_os_data`: what the loader learns from the images. */
  class XnuOsData {
    var tcFile: HostFile
    var entryPoint: u64
    var tcLoadBase: u64
    var tcLoadSize: u64
    var kernelLoadBase: u64
    var loadEnd: u64
    var ramdiskLoadBase: u64
    var ramdiskSize: u64
    var dtbLoadBase: u64
    var dtbSize: u64
    var bootargLoadBase: u64
    /** The load commands of the kernel image (`meta_buf`). */
    var metaBuf: seq<byte>
    /** The segment list: offsets into `metaBuf` of `LC_SEGMENT_64` commands, head first. */
    var root: seq<nat>

    /** The record as `calloc` returns it, with the trust-cache file opened. */
    constructor (tc: HostFile)
      ensures tcFile == tc && root == [] && metaBuf == []
      ensures entryPoint == 0 && tcLoadBase == 0 && tcLoadSize == 0
      ensures kernelLoadBase == 0 && loadEnd == 0
      ensures ramdiskLoadBase == 0 && ramdiskSize == 0
      ensures dtbLoadBase == 0 && dtbSize == 0 && bootargLoadBase == 0
    {
      tcFile := tc;
      entryPoint, tcLoadBase, tcLoadSize := 0, 0, 0;
      kernelLoadBase, loadEnd := 0, 0;
      ramdiskLoadBase, ramdiskSize := 0, 0;
      dtbLoadBase, dtbSize, bootargLoadBase := 0, 0, 0;
      metaBuf, root := [], [];
    }

    /** Every listed segment command lies inside `metaBuf`. */
    ghost predicate SegmentsFit(fmt: MachOFormat)
      reads this`metaBuf, this`root
    {
      fmt.SegmentsFit(metaBuf, root)
    }

    /** The segments of the list, in list order. */
    ghost function Segments(fmt: MachOFormat): (segs: seq<Segment>)
      reads this`metaBuf, this`root
      requires SegmentsFit(fmt)
    {
      fmt.SegmentsAt(metaBuf, root)
    }
  }

  /** The fields of `struct vm` the loader reads and writes. */
  class Vm {
    /** Guest memory, host-mapped; byte 0 is guest-physical `mapStart`. */
    var mmap: array<byte>
    var memSize: u64
    var memStart: u64
    var entry: u64
    var setupData: u64
    var mapStart: u64
    var mapSize: u64
    var kernelFile: HostFile
    var ramdiskFile: HostFile
    var dtbFile: HostFile
    /** The boot-argument record at `setupData`. */
    var bootArgs: BootArgs

    constructor (mem: array<byte>, size: u64, kernel: HostFile, ramdisk: HostFile, dtb: HostFile)
      ensures mmap == mem && memSize == size
      ensures kernelFile == kernel && ramdiskFile == ramdisk && dtbFile == dtb
    {
      mmap, memSize := mem, size;
      memStart, entry, setupData, mapStart, mapSize := 0, 0, 0, 0, 0;
      kernelFile, ramdiskFile, dtbFile := kernel, ramdisk, dtb;
      bootArgs := BootArgs(0, 0, 0, 0, 0, 0, 0, 0, 0, 0, []);
    }
  }
}
