/**
 * Address arithmetic of the XNU guest loader: the kernel's virtual
 * addresses are translated to guest-physical ones by keeping their low 30
 * bits (`VA_OFFSET`) and rebasing them at `XNU_KERNEL_BASE` (`VA2PA`);
 * regions are aligned up to 64 KiB.  On unsigned operands a mask of low bits
 * `& (2^k - 1)` is the remainder modulo `2^k`, and `& ~(2^k - 1)` is `x`
 * minus that remainder; the functions below are written that way.
 */
module XnuAddr {
  import opened Bytes

  const XNU_KERNEL_BASE: u64 := 0x4000_0000
  /** 2^30: `VA_OFFSET` keeps an address modulo this (mask 0x3fffffff). */
  const VA_SPAN: nat := 0x4000_0000
  /** 64 KiB: the alignment of every region after the kernel. */
  const REGION_ALIGN: nat := 0x1_0000

  /** `VA_OFFSET(addr)`: the low 30 bits of `addr`. */
  function VaOffset(addr: u64): (r: u64)
    ensures r < VA_SPAN && r <= addr
    ensures (addr - r) % VA_SPAN == 0
  {
    addr % VA_SPAN
  }

  /** `VA2PA(addr)`: the guest-physical address of kernel virtual address `addr`. */
  function Va2Pa(addr: u64): (r: u64)
    ensures XNU_KERNEL_BASE <= r < XNU_KERNEL_BASE + VA_SPAN
    ensures r - XNU_KERNEL_BASE == VaOffset(addr)
  {
    XNU_KERNEL_BASE + VaOffset(addr)
  }

  /** `LOAD_OFFSET(addr, base)`: where `addr` lands in a host mapping whose
      first byte is guest-physical `base` (a `uint64_t` difference). */
  function LoadOffset(addr: u64, base: u64): (r: u64)
    ensures base <= Va2Pa(addr) ==> base + r == Va2Pa(addr)
    ensures base > Va2Pa(addr) ==> r == U64_MODULUS + Va2Pa(addr) - base
  {
    Wrap64(Va2Pa(addr) - base)
  }

  /** `(x + 0xffff) & ~0xffff` on `uint64_t`. */
  function RoundUp64K(x: u64): (r: u64)
    ensures r % REGION_ALIGN == 0
    ensures x <= U64_MODULUS - REGION_ALIGN ==> x <= r < x + REGION_ALIGN
    ensures x > U64_MODULUS - REGION_ALIGN ==> r == 0
  {
    var w := Wrap64(x + (REGION_ALIGN - 1));
    w - w % REGION_ALIGN
  }

  /** `x & ~0x3fffffff`: `x` with its low 30 bits cleared. */
  function ClearLow30(x: u64): (r: u64)
    ensures r <= x < r + VA_SPAN
    ensures r % VA_SPAN == 0
  {
    x - VaOffset(x)
  }

  /** VA2PA lands in the 1 GiB window at XNU_KERNEL_BASE and is the identity
      there, so translating twice is translating once. */
  lemma Va2PaIdempotent(a: u64)
    ensures Va2Pa(Va2Pa(a)) == Va2Pa(a)
  {
    Va2PaFixesWindow(Va2Pa(a));
  }

  /** The addresses VA2PA leaves in place are exactly its window. */
  lemma Va2PaFixesWindow(p: u64)
    ensures Va2Pa(p) == p <==> XNU_KERNEL_BASE <= p < XNU_KERNEL_BASE + VA_SPAN
  {
    if XNU_KERNEL_BASE <= p < XNU_KERNEL_BASE + VA_SPAN {
      assert p == 1 * VA_SPAN + (p - VA_SPAN);
      assert p % VA_SPAN == p - VA_SPAN;
    }
  }

  /** VA2PA depends on the low 30 bits of its argument and on nothing else. */
  lemma Va2PaLow30(a: u64, b: u64)
    ensures Va2Pa(a) == Va2Pa(b) <==> a % VA_SPAN == b % VA_SPAN
  {
  }

  /** Adding a multiple of 1 GiB does not move the translation. */
  lemma {:induction false} Va2PaPeriodic(a: u64, k: nat)
    requires a + k * VA_SPAN < U64_MODULUS
    ensures Va2Pa(a + k * VA_SPAN) == Va2Pa(a)
  {
    if k > 0 {
      Va2PaPeriodic(a, k - 1);
      var b := a + (k - 1) * VA_SPAN;
      assert a + k * VA_SPAN == b + VA_SPAN;
      assert (b + VA_SPAN) % VA_SPAN == b % VA_SPAN;
    }
  }

  /** For `x <= 2^64 - 64 KiB`, RoundUp64K gives the least multiple of 64 KiB
      that is `>= x`, and leaves an aligned `x` where it is. */
  lemma RoundUp64KBounds(x: u64)
    requires x <= U64_MODULUS - REGION_ALIGN
    ensures RoundUp64K(x) % REGION_ALIGN == 0
    ensures x <= RoundUp64K(x) < x + REGION_ALIGN
    ensures x % REGION_ALIGN == 0 ==> RoundUp64K(x) == x
  {
    var w := x + (REGION_ALIGN - 1);
    assert Wrap64(w) == w;
    var q := w / REGION_ALIGN;
    assert w == q * REGION_ALIGN + w % REGION_ALIGN;
    assert RoundUp64K(x) == q * REGION_ALIGN;
    if x % REGION_ALIGN == 0 {
      var p := x / REGION_ALIGN;
      assert x == p * REGION_ALIGN;
      assert w == p * REGION_ALIGN + (REGION_ALIGN - 1);
      assert w % REGION_ALIGN == REGION_ALIGN - 1;
    }
  }

  /** Past `2^64 - 64 KiB` the `uint64_t` sum wraps and the result is 0. */
  lemma RoundUp64KWraps(x: u64)
    requires x > U64_MODULUS - REGION_ALIGN
    ensures RoundUp64K(x) == 0
  {
    var w := Wrap64(x + (REGION_ALIGN - 1));
    assert w == x + (REGION_ALIGN - 1) - U64_MODULUS;
    assert w < REGION_ALIGN;
  }

  /** The boot-args `virt_base` (`kernel_load_base & ~0x3fffffff`) and
      `phys_base` (`XNU_KERNEL_BASE`) form the pair under which VA2PA is a
      plain shift: `k - virt_base == VA2PA(k) - phys_base`. */
  lemma ClearLow30Base(k: u64)
    ensures ClearLow30(k) % VA_SPAN == 0
    ensures k - ClearLow30(k) == Va2Pa(k) - XNU_KERNEL_BASE
  {
  }
}
