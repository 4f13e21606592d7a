/**
 * The Mach-O side of the XNU loader: the walk over the load commands of a
 * 64-bit kernel image, which collects the `LC_SEGMENT_64` commands into the
 * segment list and takes the entry point from `LC_UNIXTHREAD`, and the
 * lowest and highest virtual address the segments cover.
 */
module XnuMachO {
  import opened Bytes
  import opened XnuData

  /** Where the `LC_UNIXTHREAD` command holds the entry point (the saved `pc`). */
  const THREAD_PC_OFFSET: nat := 0x110

  /** The bytes a command at `at` must have for the walk to read it: its
      header, and for `LC_UNIXTHREAD` the entry-point word as well. */
  predicate CommandFits(fmt: MachOFormat, cmds: seq<byte>, at: nat)
  {
    && at + fmt.loadCmdLen <= |cmds|
    && (fmt.LoadCmdAt(cmds, at).cmd == fmt.lcUnixThread ==> at + THREAD_PC_OFFSET + 8 <= |cmds|)
  }

  /** The `n` commands of the walk that starts at `at` all lie in `cmds`
      (the walk itself checks no bound). */
  predicate CommandsFit(fmt: MachOFormat, cmds: seq<byte>, at: nat, n: nat)
    decreases n
  {
    n == 0 || (CommandFits(fmt, cmds, at) && CommandsFit(fmt, cmds, at + fmt.LoadCmdAt(cmds, at).cmdSize, n - 1))
  }

  /** The offsets the walk visits: `n` commands, the first at `at`, each
      after the previous one by that one's `cmd_size`. */
  function CommandOffsets(fmt: MachOFormat, cmds: seq<byte>, at: nat, n: nat): (offs: seq<nat>)
    requires CommandsFit(fmt, cmds, at, n)
    ensures |offs| == n
    ensures n > 0 ==> offs[0] == at
    ensures forall k :: 0 <= k < n ==> CommandFits(fmt, cmds, offs[k])
    decreases n
  {
    if n == 0 then []
    else [at] + CommandOffsets(fmt, cmds, at + fmt.LoadCmdAt(cmds, at).cmdSize, n - 1)
  }

  /** The command after the one at `offs[k]` starts `cmd_size` bytes later. */
  predicate Chained(fmt: MachOFormat, cmds: seq<byte>, offs: seq<nat>, k: nat)
  {
    && k + 1 < |offs|
    && offs[k] + fmt.loadCmdLen <= |cmds|
    && offs[k + 1] == offs[k] + fmt.LoadCmdAt(cmds, offs[k]).cmdSize
  }

  predicate IsSegment64(fmt: MachOFormat, cmds: seq<byte>, at: nat)
    requires at + fmt.loadCmdLen <= |cmds|
  {
    fmt.LoadCmdAt(cmds, at).cmd == fmt.lcSegment64
  }

  predicate IsUnixThread(fmt: MachOFormat, cmds: seq<byte>, at: nat)
    requires at + fmt.loadCmdLen <= |cmds|
  {
    fmt.LoadCmdAt(cmds, at).cmd == fmt.lcUnixThread
  }

  predicate AllFit(fmt: MachOFormat, cmds: seq<byte>, offs: seq<nat>)
  {
    forall k :: 0 <= k < |offs| ==> CommandFits(fmt, cmds, offs[k])
  }

  /** The `LC_SEGMENT_64` offsets among `offs`, in file order. */
  function SegmentCommands(fmt: MachOFormat, cmds: seq<byte>, offs: seq<nat>): (segs: seq<nat>)
    requires AllFit(fmt, cmds, offs)
    ensures |segs| <= |offs|
  {
    if offs == [] then []
    else Pushed(fmt, cmds, offs[0]) + SegmentCommands(fmt, cmds, offs[1..])
  }

  /** The entry point after the commands at `offs`, starting from `entry`:
      each `LC_UNIXTHREAD` replaces it with the word at its offset `0x110`. */
  function LastEntry(fmt: MachOFormat, cmds: seq<byte>, offs: seq<nat>, entry: u64): u64
    requires AllFit(fmt, cmds, offs)
  {
    if offs == [] then entry
    else
      var e := if IsUnixThread(fmt, cmds, offs[0]) then ReadU64(cmds, offs[0] + THREAD_PC_OFFSET) else entry;
      LastEntry(fmt, cmds, offs[1..], e)
  }

  function Reverse<T>(s: seq<T>): (r: seq<T>)
    ensures |r| == |s|
  {
    if s == [] then [] else Reverse(s[1..]) + [s[0]]
  }

  lemma {:induction false} ReverseAt<T>(s: seq<T>, k: nat)
    requires k < |s|
    ensures Reverse(s)[k] == s[|s| - 1 - k]
  {
    if k < |s| - 1 {
      ReverseAt(s[1..], k);
    }
  }

  lemma {:induction false} ReverseAppend<T>(a: seq<T>, b: seq<T>)
    ensures Reverse(a + b) == Reverse(b) + Reverse(a)
  {
    if a == [] {
      assert a + b == b;
    } else {
      assert (a + b)[1..] == a[1..] + b;
      ReverseAppend(a[1..], b);
    }
  }

  /** What visiting the command at `at` pushes onto the segment list. */
  function Pushed(fmt: MachOFormat, cmds: seq<byte>, at: nat): seq<nat>
    requires at + fmt.loadCmdLen <= |cmds|
  {
    if IsSegment64(fmt, cmds, at) then [at] else []
  }

  /** `xnu_new_cmd64`: push a segment command onto the head of the list, the
      old list becoming the new head's tail. */
  method NewCmd64(od: XnuOsData, at: nat)
    modifies od`root
    ensures od.root == [at] + old(od.root)
  {
    od.root := [at] + od.root;
  }

  /** The `switch` of the walk, for the command at `at`: `LC_SEGMENT_64` is
      pushed onto the segment list, `LC_UNIXTHREAD` sets the entry point, any
      other command changes nothing. */
  method VisitCommand(od: XnuOsData, fmt: MachOFormat, cmds: seq<byte>, at: nat) returns (size: u32)
    requires fmt.Valid() && CommandFits(fmt, cmds, at)
    modifies od`root, od`entryPoint
    ensures size == fmt.LoadCmdAt(cmds, at).cmdSize
    ensures od.root == Pushed(fmt, cmds, at) + old(od.root)
    ensures od.entryPoint ==
      if IsUnixThread(fmt, cmds, at) then ReadU64(cmds, at + THREAD_PC_OFFSET) else old(od.entryPoint)
  {
    var header := fmt.LoadCmdAt(cmds, at);
    if header.cmd == fmt.lcSegment64 {
      NewCmd64(od, at);
    } else if header.cmd == fmt.lcUnixThread {
      od.entryPoint := ReadU64(cmds, at + THREAD_PC_OFFSET);
    }
    size := header.cmdSize;
  }

  /** The segment list and entry point that walking `m` commands from `at`
      leaves, starting from `root` and `entry`. */
  ghost function WalkOutcome(fmt: MachOFormat, cmds: seq<byte>, at: nat, m: nat, root: seq<nat>, entry: u64): (seq<nat>, u64)
    requires CommandsFit(fmt, cmds, at, m)
  {
    var offs := CommandOffsets(fmt, cmds, at, m);
    (Reverse(SegmentCommands(fmt, cmds, offs)) + root, LastEntry(fmt, cmds, offs, entry))
  }

  /** Visiting the first of `m` remaining commands moves it from the work
      still to do onto the list and the entry point. */
  lemma WalkOne(fmt: MachOFormat, cmds: seq<byte>, at: nat, m: nat, root: seq<nat>, entry: u64)
    requires CommandsFit(fmt, cmds, at, m) && m > 0
    ensures CommandFits(fmt, cmds, at)
    ensures CommandsFit(fmt, cmds, at + fmt.LoadCmdAt(cmds, at).cmdSize, m - 1)
    ensures WalkOutcome(fmt, cmds, at, m, root, entry)
      == WalkOutcome(fmt, cmds, at + fmt.LoadCmdAt(cmds, at).cmdSize, m - 1, Pushed(fmt, cmds, at) + root,
           if IsUnixThread(fmt, cmds, at) then ReadU64(cmds, at + THREAD_PC_OFFSET) else entry)
  {
    var next := at + fmt.LoadCmdAt(cmds, at).cmdSize;
    var rest := CommandOffsets(fmt, cmds, at, m);
    var tail := CommandOffsets(fmt, cmds, next, m - 1);
    assert rest[1..] == tail;
    var here := Pushed(fmt, cmds, at);
    assert SegmentCommands(fmt, cmds, rest) == here + SegmentCommands(fmt, cmds, tail);
    ReverseAppend(here, SegmentCommands(fmt, cmds, tail));
    assert Reverse(here) == here;
    assert Reverse(SegmentCommands(fmt, cmds, rest)) + root == Reverse(SegmentCommands(fmt, cmds, tail)) + (here + root);
  }

  /** The command walk of `xnu_parse_kernel_image`, given the header's
      `nr_cmds` and the `size_of_cmds` bytes that follow the header, on the
      freshly allocated record: the list becomes the segment commands in
      reverse file order, and the entry point is the last `LC_UNIXTHREAD`'s. */
  method ParseKernelImage(od: XnuOsData, fmt: MachOFormat, cmds: seq<byte>, nrCmds: u32)
    requires fmt.Valid()
    requires CommandsFit(fmt, cmds, 0, nrCmds)
    requires od.root == []
    modifies od`root, od`entryPoint, od`metaBuf
    ensures var offs := CommandOffsets(fmt, cmds, 0, nrCmds);
      && od.root == Reverse(SegmentCommands(fmt, cmds, offs))
      && od.entryPoint == LastEntry(fmt, cmds, offs, old(od.entryPoint))
    ensures od.metaBuf == cmds
  {
    ghost var want := WalkOutcome(fmt, cmds, 0, nrCmds, od.root, od.entryPoint);
    var at: nat := 0;
    var i: nat := 0;
    while i < nrCmds
      invariant i <= nrCmds
      invariant CommandsFit(fmt, cmds, at, nrCmds - i)
      invariant WalkOutcome(fmt, cmds, at, nrCmds - i, od.root, od.entryPoint) == want
    {
      WalkOne(fmt, cmds, at, nrCmds - i, od.root, od.entryPoint);
      var size := VisitCommand(od, fmt, cmds, at);
      at := at + size;
      i := i + 1;
    }
    assert CommandOffsets(fmt, cmds, at, 0) == [];
    ghost var listed := Reverse(SegmentCommands(fmt, cmds, CommandOffsets(fmt, cmds, 0, nrCmds)));
    assert od.root == want.0 == listed + [];
    assert listed + [] == listed;
    od.metaBuf := cmds;
  }

  /** The walk visits exactly `nr_cmds` commands, the first at the start of
      the command area and each later one at the previous one's offset plus
      its `cmd_size`. */
  lemma {:induction false} WalkVisits(fmt: MachOFormat, cmds: seq<byte>, at: nat, n: nat, k: nat)
    requires CommandsFit(fmt, cmds, at, n)
    requires k + 1 < n
    ensures Chained(fmt, cmds, CommandOffsets(fmt, cmds, at, n), k)
    decreases n
  {
    var next := at + fmt.LoadCmdAt(cmds, at).cmdSize;
    if k > 0 {
      WalkVisits(fmt, cmds, next, n - 1, k - 1);
    }
  }

  /** The segment list comes out in reverse file order: the `k`-th segment
      command of the file is `k` places from the end of the list. */
  lemma SegmentListReversed(fmt: MachOFormat, cmds: seq<byte>, offs: seq<nat>, k: nat)
    requires AllFit(fmt, cmds, offs)
    requires k < |SegmentCommands(fmt, cmds, offs)|
    ensures var segs := SegmentCommands(fmt, cmds, offs);
      Reverse(segs)[|segs| - 1 - k] == segs[k]
  {
    var segs := SegmentCommands(fmt, cmds, offs);
    ReverseAt(segs, |segs| - 1 - k);
  }

  /** Exactly the `LC_SEGMENT_64` commands are listed: an offset is listed
      iff the walk visits it and it holds an `LC_SEGMENT_64`. */
  lemma {:induction false} SegmentCommandsExactly(fmt: MachOFormat, cmds: seq<byte>, offs: seq<nat>, x: nat)
    requires AllFit(fmt, cmds, offs)
    ensures x in SegmentCommands(fmt, cmds, offs) <==> x in offs && x + fmt.loadCmdLen <= |cmds| && IsSegment64(fmt, cmds, x)
  {
    if offs != [] {
      SegmentCommandsExactly(fmt, cmds, offs[1..], x);
      assert offs == [offs[0]] + offs[1..];
    }
  }

  /** The list keeps the file order of the segment commands it takes: of two
      segment commands, the one visited first comes first. */
  lemma {:induction false} SegmentCommandsInOrder(fmt: MachOFormat, cmds: seq<byte>, offs: seq<nat>, i: nat, j: nat)
    returns (a: nat, b: nat)
    requires AllFit(fmt, cmds, offs)
    requires i < j < |offs|
    requires IsSegment64(fmt, cmds, offs[i]) && IsSegment64(fmt, cmds, offs[j])
    ensures a < b < |SegmentCommands(fmt, cmds, offs)|
    ensures SegmentCommands(fmt, cmds, offs)[a] == offs[i] && SegmentCommands(fmt, cmds, offs)[b] == offs[j]
  {
    var segs := SegmentCommands(fmt, cmds, offs);
    var tail := SegmentCommands(fmt, cmds, offs[1..]);
    if i == 0 {
      assert offs[j] in offs[1..];
      SegmentCommandsExactly(fmt, cmds, offs[1..], offs[j]);
      var c :| 0 <= c < |tail| && tail[c] == offs[j];
      assert segs == [offs[0]] + tail;
      a, b := 0, c + 1;
    } else {
      var a', b' := SegmentCommandsInOrder(fmt, cmds, offs[1..], i - 1, j - 1);
      if IsSegment64(fmt, cmds, offs[0]) {
        assert segs == [offs[0]] + tail;
        a, b := a' + 1, b' + 1;
      } else {
        assert segs == [] + tail;
        a, b := a', b';
      }
    }
  }

  /** With no `LC_UNIXTHREAD` among the commands the entry point keeps its
      earlier value. */
  lemma {:induction false} LastEntryNoThread(fmt: MachOFormat, cmds: seq<byte>, offs: seq<nat>, entry: u64)
    requires AllFit(fmt, cmds, offs)
    requires forall k :: 0 <= k < |offs| ==> !IsUnixThread(fmt, cmds, offs[k])
    ensures LastEntry(fmt, cmds, offs, entry) == entry
  {
    if offs != [] {
      LastEntryNoThread(fmt, cmds, offs[1..], entry);
    }
  }

  /** The entry point is the word at `0x110` of the last `LC_UNIXTHREAD`
      visited. */
  lemma {:induction false} LastEntryIsLastThread(fmt: MachOFormat, cmds: seq<byte>, offs: seq<nat>, entry: u64, k: nat)
    requires AllFit(fmt, cmds, offs)
    requires k < |offs| && IsUnixThread(fmt, cmds, offs[k])
    requires forall j :: k < j < |offs| ==> !IsUnixThread(fmt, cmds, offs[j])
    ensures LastEntry(fmt, cmds, offs, entry) == ReadU64(cmds, offs[k] + THREAD_PC_OFFSET)
  {
    var e := if IsUnixThread(fmt, cmds, offs[0]) then ReadU64(cmds, offs[0] + THREAD_PC_OFFSET) else entry;
    if k == 0 {
      LastEntryNoThread(fmt, cmds, offs[1..], e);
    } else {
      LastEntryIsLastThread(fmt, cmds, offs[1..], e, k - 1);
    }
  }

  /** `vm_addr + vm_size` as `uint64_t` computes it. */
  function SegmentEnd(s: Segment): u64
  {
    Wrap64(s.vmAddr + s.vmSize)
  }

  /** The extent after looking at `segs` in list order, starting from
      `low = 2^64 - 1`, `high = 0`. */
  function Extent(segs: seq<Segment>): (lh: (u64, u64))
  {
    if segs == [] then (U64_MODULUS - 1, 0)
    else
      var (low, high) := Extent(segs[..|segs| - 1]);
      var s := segs[|segs| - 1];
      (if s.vmAddr < low then s.vmAddr else low, if SegmentEnd(s) > high then SegmentEnd(s) else high)
  }

  /** `xnu_get_macho_highlow`: walk the segment list from its head, keeping
      the least `vm_addr` and the greatest `vm_addr + vm_size`. */
  method GetMachoHighLow(od: XnuOsData, fmt: MachOFormat) returns (low: u64, high: u64)
    requires od.SegmentsFit(fmt)
    ensures (low, high) == Extent(od.Segments(fmt))
  {
    ghost var segs := od.Segments(fmt);
    low, high := U64_MODULUS - 1, 0;
    var i := 0;
    while i < |od.root|
      invariant i <= |od.root|
      invariant (low, high) == Extent(segs[..i])
    {
      var cmd := fmt.SegmentAt(od.metaBuf, od.root[i]);
      assert segs[..i + 1][..i] == segs[..i] && segs[..i + 1][i] == cmd;
      if cmd.vmAddr < low {
        low := cmd.vmAddr;
      }
      if Wrap64(cmd.vmAddr + cmd.vmSize) > high {
        high := Wrap64(cmd.vmAddr + cmd.vmSize);
      }
      i := i + 1;
    }
    assert segs[..i] == segs;
  }

  /** The extent is the least `vm_addr` and the greatest end over the list;
      an empty list gives `low = 2^64 - 1`, `high = 0`. */
  lemma {:induction false} ExtentIsMinMax(segs: seq<Segment>)
    ensures segs == [] ==> Extent(segs) == (U64_MODULUS - 1, 0)
    ensures forall k :: 0 <= k < |segs| ==> Extent(segs).0 <= segs[k].vmAddr && SegmentEnd(segs[k]) <= Extent(segs).1
    ensures segs != [] ==> exists k :: 0 <= k < |segs| && Extent(segs).0 == segs[k].vmAddr
    ensures segs != [] ==> exists k :: 0 <= k < |segs| && Extent(segs).1 == SegmentEnd(segs[k])
  {
    if segs != [] {
      var init := segs[..|segs| - 1];
      ExtentIsMinMax(init);
      assert forall k :: 0 <= k < |init| ==> init[k] == segs[k];
      var last := |segs| - 1;
      if init == [] {
        assert Extent(segs).0 == segs[last].vmAddr;
        assert Extent(segs).1 == SegmentEnd(segs[last]);
      } else {
        if Extent(segs).0 != segs[last].vmAddr {
          var k :| 0 <= k < |init| && Extent(init).0 == init[k].vmAddr;
          assert Extent(segs).0 == segs[k].vmAddr;
        }
        if Extent(segs).1 != SegmentEnd(segs[last]) {
          var k :| 0 <= k < |init| && Extent(init).1 == SegmentEnd(init[k]);
          assert Extent(segs).1 == SegmentEnd(segs[k]);
        }
      }
    }
  }

  /** For a non-empty list whose ends do not wrap, `low <= high`: the extent
      is an interval covering every segment. */
  lemma ExtentOrdered(segs: seq<Segment>)
    requires segs != []
    requires forall k :: 0 <= k < |segs| ==> segs[k].vmAddr + segs[k].vmSize < U64_MODULUS
    ensures Extent(segs).0 <= Extent(segs).1
    ensures forall k :: 0 <= k < |segs| ==>
      Extent(segs).0 <= segs[k].vmAddr && segs[k].vmAddr + segs[k].vmSize <= Extent(segs).1
  {
    ExtentIsMinMax(segs);
  }
}
