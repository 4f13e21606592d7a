/**
 * The per-VCPU virtual-interrupt record of the hypervisor: the state and
 * action codes of a virtual IRQ, the numbering of global virtual IRQs, the
 * layout of `struct virq` and `struct virq_struct`, and the inline queries
 * on the two pending counters.  The operations that move interrupts between
 * states are declared by the header but defined elsewhere and are not part
 * of this model.
 */
module Virq {
  import opened Bytes
  import opened Options

  const U32_MODULUS: int := 0x1_0000_0000

  /** The state of a virtual IRQ (`VIRQ_STATE_*`). */
  datatype VirqState = Inactive | Pending | Active | ActiveAndPending | Offline
  {
    /** The value of the state's `VIRQ_STATE_*` constant, as kept in the
        `state` byte of `struct virq`. */
    function Code(): (c: byte)
      ensures c <= 4
    {
      match this
      case Inactive => 0x0
      case Pending => 0x1
      case Active => 0x2
      case ActiveAndPending => 0x3
      case Offline => 0x4
    }
  }

  function StateOfCode(c: byte): (s: Option<VirqState>)
    ensures s.Some? ==> s.value.Code() == c
    ensures c <= 4 <==> s.Some?
  {
    if c == 0x0 then Some(Inactive)
    else if c == 0x1 then Some(Pending)
    else if c == 0x2 then Some(Active)
    else if c == 0x3 then Some(ActiveAndPending)
    else if c == 0x4 then Some(Offline)
    else None
  }

  /** The five states have five distinct codes, 0 to 4, and decoding a
      state's code gives the state back. */
  lemma StateCodes(s: VirqState, t: VirqState)
    ensures s.Code() == t.Code() <==> s == t
    ensures StateOfCode(s.Code()) == Some(s)
  {
  }

  /** `ACTIVE_AND_PENDING` is the `PENDING` bit and the `ACTIVE` bit
      together: bit 0 of a non-offline state says pending, bit 1 active. */
  lemma StateBits(s: VirqState)
    ensures ActiveAndPending.Code() as bv8 == Pending.Code() as bv8 | Active.Code() as bv8
    ensures s != Offline ==>
      && (s.Code() as bv8 & Pending.Code() as bv8 != 0 <==> s == Pending || s == ActiveAndPending)
      && (s.Code() as bv8 & Active.Code() as bv8 != 0 <==> s == Active || s == ActiveAndPending)
  {
  }

  /** What to do with a virtual IRQ's list membership (`VIRQ_ACTION_*`). */
  datatype VirqAction = Remove | Add | Clear
  {
    function Code(): (c: byte)
      ensures c <= 2
    {
      match this
      case Remove => 0x0
      case Add => 0x1
      case Clear => 0x2
    }
  }

  function ActionOfCode(c: byte): (a: Option<VirqAction>)
    ensures a.Some? ==> a.value.Code() == c
    ensures c <= 2 <==> a.Some?
  {
    if c == 0x0 then Some(Remove) else if c == 0x1 then Some(Add) else if c == 0x2 then Some(Clear) else None
  }

  /** The three action codes are distinct and decode back. */
  lemma ActionCodes(a: VirqAction, b: VirqAction)
    ensures a.Code() == b.Code() <==> a == b
    ensures ActionOfCode(a.Code()) == Some(a)
  {
  }

  const VIRQ_BASE: u32 := 1024
  const MAX_VIRQ_NR: u32 := 512
  const VIRQ_AFFINITY_ANY: u32 := 0xffff

  /** `VIRQ_OFFSET(v)` on a `uint32_t` virq number: `v - VIRQ_BASE`, wrapping
      below 0. */
  function VirqOffset(v: u32): (off: u32)
    ensures VIRQ_BASE <= v ==> off == v - VIRQ_BASE
    ensures v < VIRQ_BASE ==> off == v - VIRQ_BASE + U32_MODULUS
  {
    (v - VIRQ_BASE) % U32_MODULUS
  }

  /** The offset is an index into the `MAX_VIRQ_NR` global virqs exactly for
      the virq numbers `[VIRQ_BASE, VIRQ_BASE + MAX_VIRQ_NR)`. */
  lemma VirqOffsetInRange(v: u32)
    ensures VirqOffset(v) < MAX_VIRQ_NR <==> VIRQ_BASE <= v < VIRQ_BASE + MAX_VIRQ_NR
  {
  }

  /** `struct virq`, without its list linkage; `state` holds a
      `VIRQ_STATE_*` code. */
  datatype VirqDesc = VirqDesc(hIntno: u32, vIntno: u32, hw: byte, state: byte, id: u16, pr: u16)
  {
    /** The state the `state` byte names, if it names one. */
    function State(): (s: Option<VirqState>)
      ensures s.Some? <==> state <= 4
      ensures s.Some? ==> s.value.Code() == state
    {
      StateOfCode(state)
    }

    /** The record with its state byte set to `s`. */
    function WithState(s: VirqState): (d: VirqDesc)
      ensures d.State() == Some(s)
      ensures d.(state := state) == this
    {
      StateCodes(s, s);
      this.(state := s.Code())
    }
  }

  /** Bits in an `unsigned long` on the 64-bit targets. */
  const BITS_PER_LONG: nat := 64

  /** `BITS_TO_LONGS(n)`: the words of a `DECLARE_BITMAP(name, n)`. */
  function BitsToLongs(n: nat): nat
  {
    (n + BITS_PER_LONG - 1) / BITS_PER_LONG
  }

  /** A bitmap of `BitsToLongs(n)` words has a bit for each of `n` slots, and
      no word to spare. */
  lemma BitmapCoversSlots(n: nat, k: nat)
    requires k < n
    ensures k / BITS_PER_LONG < BitsToLongs(n)
    ensures (BitsToLongs(n) - 1) * BITS_PER_LONG < n
  {
    var w := BitsToLongs(n);
    assert n + BITS_PER_LONG - 1 < (w + 1) * BITS_PER_LONG;
    assert w * BITS_PER_LONG <= n + BITS_PER_LONG - 1;
  }

  /** `struct virq_struct`, without its lock and its two lists. */
  class VirqStruct {
    var activeCount: u32
    var pendingHirq: u32
    var pendingVirq: u32
    /** One bit per slot of `virqs` (`irq_bitmap`). */
    var irqBitmap: array<bv64>
    var localIrqMask: array<bv64>
    var virqs: array<VirqDesc>
    /** `CONFIG_VCPU_MAX_ACTIVE_IRQS`. */
    const maxActiveIrqs: nat
    /** `VCPU_MAX_LOCAL_IRQS`. */
    const maxLocalIrqs: nat

    /** The record array and the in-use bitmap are sized by the same
        capacity, one bit per slot. */
    ghost predicate Valid()
      reads this
    {
      && virqs.Length == maxActiveIrqs
      && irqBitmap.Length == BitsToLongs(maxActiveIrqs)
      && localIrqMask.Length == BitsToLongs(maxLocalIrqs)
    }

    /** The layout with the given capacities and counters; the fields the
        header leaves to `vcpu_virq_struct_init` are arbitrary here. */
    constructor (maxActive: nat, maxLocal: nat, active: u32, hirq: u32, virq: u32)
      ensures Valid()
      ensures maxActiveIrqs == maxActive && maxLocalIrqs == maxLocal
      ensures activeCount == active && pendingHirq == hirq && pendingVirq == virq
    {
      maxActiveIrqs, maxLocalIrqs := maxActive, maxLocal;
      activeCount, pendingHirq, pendingVirq := active, hirq, virq;
      irqBitmap := new bv64[BitsToLongs(maxActive)];
      localIrqMask := new bv64[BitsToLongs(maxLocal)];
      virqs := new VirqDesc[maxActive];
    }

    /** `vcpu_has_virq_pending`: `!!pending_virq`. */
    function HasVirqPending(): (r: int)
      reads this
      ensures r == 0 || r == 1
      ensures r == 1 <==> pendingVirq != 0
    {
      if pendingVirq != 0 then 1 else 0
    }

    /** `vcpu_has_hwirq_pending`: `!!pending_hirq`. */
    function HasHwirqPending(): (r: int)
      reads this
      ensures r == 0 || r == 1
      ensures r == 1 <==> pendingHirq != 0
    {
      if pendingHirq != 0 then 1 else 0
    }

    /** `vcpu_has_irq`: the `uint32_t` sum of the two counters, returned as
        an `int`. */
    function HasIrq(): (r: int)
      reads this
      ensures -0x8000_0000 <= r < 0x8000_0000
      ensures r % U32_MODULUS == (pendingHirq + pendingVirq) % U32_MODULUS
    {
      ToInt32((pendingHirq + pendingVirq) % U32_MODULUS)
    }
  }

  /** In a well-formed record every slot of `virqs` has its bit in
      `irq_bitmap`. */
  lemma SlotHasBit(vs: VirqStruct, k: nat)
    requires vs.Valid() && k < vs.virqs.Length
    ensures k / BITS_PER_LONG < vs.irqBitmap.Length
  {
    BitmapCoversSlots(vs.maxActiveIrqs, k);
  }

  /** The `int` a `uint32_t` converts to (two's complement). */
  function ToInt32(x: u32): (r: int)
    ensures -0x8000_0000 <= r < 0x8000_0000
    ensures r % U32_MODULUS == x
  {
    if x < 0x8000_0000 then x else x - U32_MODULUS
  }

  /** Unless the sum wraps, `vcpu_has_irq` is non-zero exactly when one of
      the counters is, and for sums below 2^31 it is the sum itself. */
  lemma HasIrqIffPending(vs: VirqStruct)
    requires vs.pendingHirq + vs.pendingVirq < U32_MODULUS
    ensures vs.HasIrq() != 0 <==> vs.pendingHirq != 0 || vs.pendingVirq != 0
    ensures vs.pendingHirq + vs.pendingVirq < 0x8000_0000 ==> vs.HasIrq() == vs.pendingHirq + vs.pendingVirq
    ensures vs.HasIrq() != 0 <==> vs.HasVirqPending() + vs.HasHwirqPending() != 0
  {
  }

  /** A sum of exactly 2^32 wraps to 0: `vcpu_has_irq` then reports nothing
      although both counters are non-zero. */
  lemma HasIrqWraps(vs: VirqStruct)
    requires vs.pendingHirq + vs.pendingVirq == U32_MODULUS
    ensures vs.HasIrq() == 0
    ensures vs.HasVirqPending() == 1 && vs.HasHwirqPending() == 1
  {
  }

  /** A call of `virq_enable(virq, enable)`. */
  datatype EnableCall = VirqEnable(virq: u32, enable: int)

  /** `virq_mask(virq)`: the call it makes. */
  function VirqMask(virq: u32): (call: EnableCall)
    ensures call == VirqEnable(virq, 0)
  {
    VirqEnable(virq, 0)
  }

  /** `virq_unmask(virq)`: the call it makes. */
  function VirqUnmask(virq: u32): (call: EnableCall)
    ensures call == VirqEnable(virq, 1)
  {
    VirqEnable(virq, 1)
  }

  /** Masking and unmasking act on the same virq and differ only in the
      `enable` flag, and each is determined by its virq. */
  lemma MaskUnmaskPair(v: u32, w: u32)
    ensures VirqMask(v).virq == VirqUnmask(v).virq == v
    ensures VirqMask(v) != VirqUnmask(w)
    ensures VirqMask(v) == VirqMask(w) <==> v == w
    ensures VirqUnmask(v) == VirqUnmask(w) <==> v == w
  {
  }
}
