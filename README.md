# XNU guest loader and virtual-IRQ record of minos, in Dafny

This project models two parts of the minos hypervisor.

The first is the XNU loader of the `mvm` tool, in `tools/mvm/os/os_xnu.c`. It boots an Apple XNU kernel as a guest:

- It walks the load commands of the 64-bit Mach-O kernel image. It collects the `LC_SEGMENT_64` commands into a segment list and takes the entry point from `LC_UNIXTHREAD`.
- It computes the kernel's extent and lays out the guest address space. The ramdisk, the device tree (DTB) and the boot-argument record follow the kernel, each on a 64 KiB boundary.
- It copies the segments and the files into guest memory and zero-fills each segment's BSS.
- It fills the boot-argument record and patches two placeholder properties of the DTB to describe the ramdisk and the trust cache.

The second is the header `include/minos/virq.h`. It gives:

- the state and action codes of a virtual IRQ;
- the numbering of global virtual IRQs;
- the per-VCPU `struct virq_struct`;
- the inline queries on its pending counters.

Modules:

- `Bytes`: fixed-width integers, little-endian words, and `strncmp`/`strncpy` on byte buffers.
- `XnuAddr`: `VA_OFFSET`, `VA2PA`, `LOAD_OFFSET` and the 64 KiB round-up.
- `XnuData`: `struct xnu_os_data` and the fields of `struct vm` the loader uses. Both are classes updated in place.
- `XnuMachO`: the command walk, the segment list and `xnu_get_macho_highlow`.
- `XnuLayout`: `xnu_parse_address_space`.
- `GuestMemory`: stores into the host mapping of guest memory.
- `XnuEnv`: `xnu_setup_env`.
- `XnuLoad`: `xnu_load_image` and its four steps.
- `Virq`: `virq.h`.

Modelling choices:

- Loops of the C code are `while` loops of Dafny methods. Each method is proved against a specification function: `CommandOffsets`/`SegmentCommands`/`LastEntry` for the walk, `Extent` for the extent, `FirstMatch` for the DTB search, and `LoadSegments` for the kernel load.
- The linked segment list is a sequence of offsets into the command buffer `meta_buf`, head first. Pushing at the head (`xnu_new_cmd64`) is `[at] + root`, so the list comes out in reverse file order.
- Guest memory (`vm->mmap`) is an `array` of bytes.
- Files are byte sequences. A file descriptor `<= 0` is a file that was `NotOpened`. The `fstat`-reports-a-regular-file test is the `regular` flag.
- Constants and structure layouts from headers outside the model are parameters:
  - `LC_SEGMENT_64`, `LC_UNIXTHREAD`, and the decoding of `struct load_cmd` and `struct segment_cmd64` (`MachOFormat`);
  - `sizeof(struct xnu_arm64_boot_args)`, the revision and version, `XNU_DT_PROP_NAME_LENGTH`, the offset of a property's value, `MEM_BLOCK_SIZE`, `MEM_BLOCK_ALIGN` and `MEM_BLOCK_BALIGN` (`Platform`).
- `uint64_t` arithmetic wraps explicitly (`Wrap64`).
- A bit mask of low bits is written as a remainder, on unsigned operands: `& 0x3fffffff` is `% 2^30`, and `& ~0xffff` is `x - x % 2^16`.

## Model

| member | source | states |
|---|---|---|
| XnuAddr.VaOffset | tools/mvm/os/os_xnu.c:52 | the result is below 2^30, at most the address, and differs from it by a multiple of 2^30 (the low 30 bits) |
| XnuAddr.Va2Pa | tools/mvm/os/os_xnu.c:51-53 | the translation lies in the 1 GiB window at `XNU_KERNEL_BASE` and is the base plus `VA_OFFSET` |
| XnuAddr.LoadOffset | tools/mvm/os/os_xnu.c:55 | `base + offset` is the translated address when `base` is not above it; otherwise the `uint64_t` difference wraps |
| XnuAddr.Va2PaIdempotent | tools/mvm/os/os_xnu.c:53 | translating twice is translating once |
| XnuAddr.Va2PaFixesWindow | tools/mvm/os/os_xnu.c:51-53 | VA2PA leaves an address in place exactly when it lies in `[XNU_KERNEL_BASE, XNU_KERNEL_BASE + 2^30)` |
| XnuAddr.Va2PaLow30 | tools/mvm/os/os_xnu.c:53 | two addresses translate alike exactly when their low 30 bits agree |
| XnuAddr.Va2PaPeriodic | tools/mvm/os/os_xnu.c:53 | adding multiples of 1 GiB does not change the translation |
| XnuAddr.RoundUp64KBounds | tools/mvm/os/os_xnu.c:411-412 | without overflow, `(x + 0xffff) & ~0xffff` is 64 KiB aligned, in `[x, x + 64 KiB)`, and leaves an aligned `x` unchanged |
| XnuAddr.RoundUp64KWraps | tools/mvm/os/os_xnu.c:427-428 | above 2^64 - 64 KiB the `uint64_t` round-up wraps to 0 |
| XnuAddr.RoundUp64K | tools/mvm/os/os_xnu.c:411-412 | the result is always 64 KiB aligned; without overflow it is in `[x, x + 64 KiB)`, and above 2^64 - 64 KiB it wraps to 0 |
| XnuAddr.ClearLow30 | tools/mvm/os/os_xnu.c:97 | `x & ~0x3fffffff` is 1 GiB aligned and is the greatest such value not above `x` |
| XnuAddr.ClearLow30Base | tools/mvm/os/os_xnu.c:97-98 | `virt_base` is 1 GiB aligned and `k - virt_base == VA2PA(k) - phys_base` for the kernel base `k` |
| XnuData.XnuOsData.constructor | tools/mvm/os/os_xnu.c:467-471 | the record starts zeroed (`calloc`), with an empty segment list and the trust-cache file it was given |
| XnuMachO.NewCmd64 | tools/mvm/os/os_xnu.c:287-301 | the command becomes the new head of the segment list, the old list its tail |
| XnuMachO.VisitCommand | tools/mvm/os/os_xnu.c:339-351 | `LC_SEGMENT_64` is pushed, `LC_UNIXTHREAD` sets the entry point to the word at `0x110`, any other command changes neither; the step is the command's `cmd_size` |
| XnuMachO.CommandOffsets | tools/mvm/os/os_xnu.c:336-352 | the walk visits `nr_cmds` offsets, the first at the start of the command area |
| XnuMachO.ParseKernelImage | tools/mvm/os/os_xnu.c:336-354 | on the freshly allocated record, the list becomes the segment commands in reverse file order; the entry point is that of the last `LC_UNIXTHREAD`, or the old one; `meta_buf` holds the commands |
| XnuMachO.WalkOne | tools/mvm/os/os_xnu.c:338-352 | one iteration moves the first remaining command from the work still to do into the list and the entry point |
| XnuMachO.WalkVisits | tools/mvm/os/os_xnu.c:351 | each visited command starts at the previous one's offset plus its `cmd_size` |
| XnuMachO.SegmentListReversed | tools/mvm/os/os_xnu.c:297-300 | the `k`-th segment command in file order sits `k` places from the end of the list |
| XnuMachO.SegmentCommandsExactly | tools/mvm/os/os_xnu.c:339-343 | an offset is listed exactly when the walk visits it and it holds an `LC_SEGMENT_64` |
| XnuMachO.SegmentCommandsInOrder | tools/mvm/os/os_xnu.c:338-343 | of two segment commands, the one visited first comes first among the collected offsets |
| XnuMachO.LastEntryNoThread | tools/mvm/os/os_xnu.c:344-345 | without an `LC_UNIXTHREAD` the entry point keeps its value |
| XnuMachO.LastEntryIsLastThread | tools/mvm/os/os_xnu.c:344-345 | the entry point is the word at offset `0x110` of the last `LC_UNIXTHREAD` |
| XnuMachO.GetMachoHighLow | tools/mvm/os/os_xnu.c:359-379 | the loop over the list computes the extent of the list's segments, starting from `low = ~0`, `high = 0` |
| XnuMachO.ExtentIsMinMax | tools/mvm/os/os_xnu.c:362-372 | `low` is the least `vm_addr` and `high` the greatest `vm_addr + vm_size` of some segment; an empty list gives `(~0, 0)` |
| XnuMachO.ExtentOrdered | tools/mvm/os/os_xnu.c:359-379 | for a non-empty list without wrapping ends, `low <= high` and every segment lies in `[low, high)` |
| XnuLayout.CountedSize | tools/mvm/os/os_xnu.c:381-391 | the size of a regular file, and 0 for a file that is missing or not regular |
| XnuLayout.PlaceBounds | tools/mvm/os/os_xnu.c:403-412 | a counted file fits between its base and the next region, which starts on a 64 KiB boundary less than 64 KiB past its end; an uncounted file takes no room |
| XnuLayout.LayoutOrdered | tools/mvm/os/os_xnu.c:400-428 | without overflow the regions come in order without overlap: kernel, ramdisk, DTB, boot arguments; `load_end` is the first 64 KiB boundary at or after the boot arguments' end |
| XnuLayout.AbsentFilesCollapse | tools/mvm/os/os_xnu.c:403-424 | a missing or non-regular ramdisk or DTB gets size 0 and the next region starts where its own would have; a present one pushes the next region to the rounded-up end |
| XnuLayout.KernelRegionCoversSegments | tools/mvm/os/os_xnu.c:398-401 | every segment lies in `[kernel_load_base, ramdisk_load_base)` |
| XnuLayout.PlaceRegions | tools/mvm/os/os_xnu.c:400-428 | the region fields become the layout `AddressSpace` computes from the extent, the two files and the boot-argument size |
| XnuLayout.ParseAddressSpace | tools/mvm/os/os_xnu.c:393-438 | the layout of the kernel's extent, then `mem_start`, `entry`, `setup_data`, `map_start`, `map_size` and the trust-cache region derived from it |
| GuestMemory.Store | tools/mvm/os/os_xnu.c:181 | guest memory afterwards is the old memory with the bytes spliced in at the offset |
| GuestMemory.ZeroFill | tools/mvm/os/os_xnu.c:213-214 | guest memory afterwards is the old memory with `n` zeros at the offset |
| GuestMemory.StoreU64 | tools/mvm/os/os_xnu.c:136-137 | a `uint64_t` store writes the little-endian word and nothing else |
| Bytes.ReadAfterWriteU64 | tools/mvm/os/os_xnu.c:135-137 | a `uint64_t` read at the offset just written gives the stored value |
| Bytes.StrNCpy | tools/mvm/os/os_xnu.c:134 | `strncpy(dst, s, n)` stores the characters of `s` up to its first NUL, truncated to `n`, then NUL padding up to `n` |
| Bytes.StrNCmpEqSpan | tools/mvm/os/os_xnu.c:122-123 | `strncmp(p, s, n) == 0` exactly when the first `n` bytes at `p` equal those of `s`, or, for `n` past the string, when `p` holds `s` and its NUL |
| Bytes.CString | tools/mvm/os/os_xnu.c:105 | the C string read from a buffer is NUL-free, a prefix of the buffer, and followed by a NUL when shorter |
| XnuEnv.FirstMatch | tools/mvm/os/os_xnu.c:121-127 | a result is an offset of the window whose bytes compare equal, with no earlier one; no result means no offset matches |
| XnuEnv.FindProperty | tools/mvm/os/os_xnu.c:121-127 | the search loop breaks at the first offset of the DTB where the placeholder name matches, or finds none |
| XnuEnv.PatchProperty | tools/mvm/os/os_xnu.c:134-137 | the record is renamed and its two value words stored, as `PatchedProperty` says |
| XnuEnv.PatchedPropertyReadBack | tools/mvm/os/os_xnu.c:134-137 | a patched record reads back its NUL-padded new name and the two words, and no other byte changes |
| XnuEnv.PatchFirstFound | tools/mvm/os/os_xnu.c:121-137 | a successful patch renamed the first property carrying the placeholder name |
| XnuEnv.SetupDtbNoRamdiskNode | tools/mvm/os/os_xnu.c:129-132 | without a `MemoryMapReserved-0` property the setup returns `-ENOENT` and leaves memory unchanged |
| XnuEnv.SetupDtbPatched | tools/mvm/os/os_xnu.c:121-162 | a setup returning 0 patched the first `MemoryMapReserved-0` as `RAMDisk`, then the first `MemoryMapReserved-1` of the patched DTB as `TrustCache` |
| XnuEnv.PatchKeeps | tools/mvm/os/os_xnu.c:134-137 | a patch leaves any run of bytes outside its record as it was |
| XnuEnv.FirstPatchSurvives | tools/mvm/os/os_xnu.c:134-160 | when the two records are apart, the ramdisk record still reads back as written after the trust-cache patch |
| XnuEnv.TwoPatchesFrame | tools/mvm/os/os_xnu.c:121-162 | the two patches change no byte outside the two records |
| XnuEnv.CmdlineFill | tools/mvm/os/os_xnu.c:94-105 | `strncpy` of the command line with its NUL into the zeroed array leaves it NUL-padded over the whole array |
| XnuEnv.CmdlineReadBack | tools/mvm/os/os_xnu.c:105 | the kernel reads back exactly the command line given |
| XnuEnv.FillBootArgs | tools/mvm/os/os_xnu.c:94-105 | the record holds revision, version, `virt_base`, `phys_base`, `mem_size`, `top_of_kdata`, `dtb`, `dtb_length`, two zeros, and the padded command line |
| XnuEnv.PatchFirstProperty | tools/mvm/os/os_xnu.c:121-137 | reports whether a placeholder property exists, and memory afterwards is the patched DTB exactly then |
| XnuEnv.PatchDtb | tools/mvm/os/os_xnu.c:117-162 | the return code and memory afterwards are those `SetupDtb` gives: ramdisk patch, then trust-cache patch, `-ENOENT` at the first one missing |
| XnuEnv.SetupEnv | tools/mvm/os/os_xnu.c:84-163 | the boot-argument record as `FillBootArgs` states, and the DTB patch and return code as `PatchDtb` states |
| XnuLoad.ReadAt | tools/mvm/os/os_xnu.c:176-181 | `read` after `lseek` delivers at most `size` bytes, all of them when the file has them, none past its end |
| XnuLoad.RawLoadContents | tools/mvm/os/os_xnu.c:173-185 | a raw load of size 0 leaves memory unchanged; otherwise the bytes `read` delivers sit at the offset and no other byte changes |
| XnuLoad.LoadRawData | tools/mvm/os/os_xnu.c:165-186 | returns 0 and stores what `read` delivers at the offset, nothing for a size of 0 |
| XnuLoad.LoadSegmentContents | tools/mvm/os/os_xnu.c:202-215 | a loaded segment holds the file's bytes, then zeros up to `vm_size`, and no other byte changes |
| XnuLoad.LoadSegmentInto | tools/mvm/os/os_xnu.c:201-215 | one iteration of the kernel load leaves memory as `LoadSegment` says |
| XnuLoad.LoadKernelImage | tools/mvm/os/os_xnu.c:188-221 | `-ENOENT` and memory unchanged without a kernel file; otherwise 0 and the segments loaded in list order |
| XnuLoad.LoadSegmentsFrame | tools/mvm/os/os_xnu.c:200-218 | loading the list changes no byte outside the segments' spans |
| XnuLoad.LoadSegmentsKeepBss | tools/mvm/os/os_xnu.c:209-215 | a segment's BSS is still zero after the whole list is loaded when no later segment overlaps it |
| XnuLoad.LoadRamdisk | tools/mvm/os/os_xnu.c:223-233 | `-ENOENT` and memory unchanged without a ramdisk file; otherwise 0 and the file loaded at the ramdisk's offset |
| XnuLoad.LoadDtb | tools/mvm/os/os_xnu.c:235-245 | `-ENOENT` and memory unchanged without a DTB file; otherwise 0 and the file loaded at the DTB's offset |
| XnuLoad.LoadTrustCache | tools/mvm/os/os_xnu.c:247-254 | 0, with the trust-cache file loaded at its offset |
| XnuLoad.StatusSum | tools/mvm/os/os_xnu.c:258-269 | the sum of the step codes is `-ENOENT` times the number of missing files, so it is 0 exactly when all are there |
| XnuLoad.LoadStatus | tools/mvm/os/os_xnu.c:264-267 | the three fallible codes add up to `-ENOENT` times the missing files, 0 exactly when kernel, ramdisk and DTB are all opened |
| XnuLoad.LoadImage | tools/mvm/os/os_xnu.c:256-270 | the return code is the sum of the four steps' codes, 0 exactly when every file is there; memory is the kernel, ramdisk, DTB and trust cache loaded in that order |
| Virq.StateOfCode | include/minos/virq.h:9-13 | the codes 0 to 4 and only they name a state, and decoding inverts `Code` |
| Virq.StateCodes | include/minos/virq.h:9-13 | the five state codes are distinct, at most 4, and decode back |
| Virq.StateBits | include/minos/virq.h:10-12 | `ACTIVE_AND_PENDING` is the bitwise or of `PENDING` and `ACTIVE`; for a non-offline state bit 0 says pending and bit 1 says active |
| Virq.ActionOfCode | include/minos/virq.h:15-17 | the codes 0 to 2 and only they name an action, and decoding inverts `Code` |
| Virq.ActionCodes | include/minos/virq.h:15-17 | the three action codes are distinct and decode back |
| Virq.VirqOffset | include/minos/virq.h:19-21 | `VIRQ_OFFSET(v)` is `v - 1024` from 1024 on, and wraps to `v - 1024 + 2^32` below it |
| Virq.VirqOffsetInRange | include/minos/virq.h:19-21 | `VIRQ_OFFSET(v)` indexes the 512 global virqs exactly for `v` in `[1024, 1536)` |
| Virq.VirqDesc.State | include/minos/virq.h:9-29 | the `state` byte of `struct virq` names a state exactly when it is at most 4, and then it is that state's code |
| Virq.VirqDesc.WithState | include/minos/virq.h:9-29 | storing a state's code in the `state` byte makes the record read back that state and changes no other field |
| Virq.BitmapCoversSlots | include/minos/virq.h:42-44 | the `BITS_TO_LONGS` words of the bitmap have a bit for every slot of `virqs`, with no word to spare |
| Virq.SlotHasBit | include/minos/virq.h:42-44 | in a well-formed record every slot of `virqs` has its bit in `irq_bitmap` |
| Virq.VirqStruct.constructor | include/minos/virq.h:35-45 | the record array and the two bitmaps are sized from the two capacities |
| Virq.VirqStruct.HasVirqPending | include/minos/virq.h:60-63 | returns 1 if `pending_virq` is nonzero, 0 if it is zero |
| Virq.VirqStruct.HasHwirqPending | include/minos/virq.h:65-68 | returns 1 if `pending_hirq` is nonzero, 0 if it is zero |
| Virq.VirqStruct.HasIrq | include/minos/virq.h:70-74 | `vcpu_has_irq` returns an `int` in the 32-bit range that agrees with the `uint32_t` sum of the two counters modulo 2^32 |
| Virq.ToInt32 | include/minos/virq.h:70-74 | the `int` an unsigned sum converts to lies in the 32-bit range and agrees with it modulo 2^32 |
| Virq.HasIrqIffPending | include/minos/virq.h:70-74 | unless the sum wraps, `vcpu_has_irq` is nonzero exactly when one counter is (the two other queries agree), and below 2^31 it is the sum |
| Virq.HasIrqWraps | include/minos/virq.h:70-74 | counters summing to exactly 2^32 make `vcpu_has_irq` return 0 although both are nonzero |
| Virq.VirqMask | include/minos/virq.h:76-79 | `virq_mask(v)` is the call `virq_enable(v, 0)` |
| Virq.VirqUnmask | include/minos/virq.h:81-84 | `virq_unmask(v)` is the call `virq_enable(v, 1)` |
| Virq.MaskUnmaskPair | include/minos/virq.h:76-84 | mask and unmask address the same virq, never make the same call, and each is determined by its virq |

## Left out

- File I/O failures are not modelled:
  - a failing `lseek` (`-EIO`);
  - a failing or empty `read` (its return code passed on);
  - a failing `fstat`, which acts like a non-regular file and so is covered by the `regular` flag;
  - the short header read of `xnu_parse_kernel_image`.
  
  Files are byte sequences, and a read past the end delivers fewer bytes or none.
- XnuLoad.LoadRawData: returns 0 whenever the file was opened. The source passes on a `read` result `<= 0`, which a read from an empty range or an I/O error gives. The `int` truncation of `read`'s `ssize_t` result is not modelled either.
- XnuMachO.ParseKernelImage: models only the command walk and the storing of `meta_buf`, given the header's `nr_cmds` and the command bytes. Reading the header and the commands is left out, as are its `-ENOMEM`/`-EIO` paths. It requires an empty segment list, which the freshly `calloc`ed record of `xnu_early_init` has (lines 467-478); a non-empty old list would point into the old `meta_buf`.
- XnuMachO.NewCmd64: does not model the silent drop of a segment when `malloc` fails.
- Out-of-bounds reads are preconditions, not behaviour. These are `CommandsFit`, `SegmentsFit`, `SegmentsFitMemory`, `RegionFits` and `DtbFits`. The C code checks no bound and reads or writes past the buffer. The region bounds are required only when a step actually copies bytes: the file is opened and the size is nonzero.
- XnuEnv.PatchDtb: its `DtbFits` precondition is conservative. It asks that a whole property record fit at every offset of the DTB, although the C search only reads `strncmp`'s span there.
- XnuEnv.FillBootArgs: the boot-argument record is kept as a `BootArgs` value on the `Vm`, not as bytes at `setup_data`. The boot-args fields the loader does not name are only zeroed by the `memset`, and the record leaves them out. `dtb_length` keeps the full `uint64_t` value of `dtb_size`, although the field is narrower in the record header, which is not part of this model.
- XnuEnv.SetupEnv: requires the command line to fit the record's array with its NUL. The C `strncpy` would overrun the array otherwise.
- XnuLoad.LoadTrustCache: requires the trust-cache file to be opened. `xnu_early_init` fails before loading otherwise (lines 471-476).
- Logging (`pr_info`, `pr_err`, `pr_debug`), `xnu_dump_cmd64`, `xnu_vm_exit`, `free`, `DEFINE_OS` and the `os_xnu` operations table are not modelled.
- `xnu_early_init` is not modelled beyond the initial state of the record.
- `get_file_size` is folded into `CountedSize`.
- Guest memory follows a little-endian host: `uint64_t` stores are little-endian byte runs.
- `include/minos/os_xnu.h` and the Mach-O definitions are not part of this model. Their constants and layouts are parameters (`MachOFormat`, `Platform`).
- `MEM_BLOCK_ALIGN` and `MEM_BLOCK_BALIGN` are arbitrary functions. Nothing is proved about `map_start` and `map_size` beyond how they are derived.
- The virq functions declared in `virq.h` but defined elsewhere are not modelled. These are `virq_enable`, `vcpu_virq_struct_init`, the `send_*` functions, `clear_pending_virq`, `register_virq`, `virq_set_priority` and `alloc_virtual_irqs`. `virq_mask`/`virq_unmask` are modelled as the call they make.
- The spinlock, the `pending_list`/`active_list` linkage and the `list` field of `struct virq` are not modelled. Neither is concurrent access to the counters.
- `BITS_PER_LONG` is taken as 64 (the 64-bit targets).
- Virq.VirqStruct.constructor: takes the counters as arguments and leaves the arrays' contents unspecified, since `vcpu_virq_struct_init` is not part of this model.
