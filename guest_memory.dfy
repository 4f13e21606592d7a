/**
 * Stores into the host mapping of guest memory (`vm->mmap`): the effect of
 * `memcpy`/`read` into a buffer, of a `uint64_t` store, of `strncpy` and of
 * `memset`, each a parallel assignment of a run of bytes.
 */
module GuestMemory {
  import opened Bytes

  /** `n` zero bytes: what `memset(p, 0, n)` stores. */
  function Zeros(n: nat): (z: seq<byte>)
    ensures |z| == n
    ensures forall k :: 0 <= k < n ==> z[k] == 0
  {
    seq(n, _ => 0)
  }

  /** Copy `bs` into `mem` from `at` on. */
  method Store(mem: array<byte>, at: nat, bs: seq<byte>)
    requires at + |bs| <= mem.Length
    modifies mem
    ensures mem[..] == Splice(old(mem[..]), at, bs)
  {
    forall j | at <= j < at + |bs| {
      mem[j] := bs[j - at];
    }
    assert forall j :: 0 <= j < mem.Length ==> mem[..][j] == Splice(old(mem[..]), at, bs)[j];
  }

  /** `memset(mem + at, 0, n)`. */
  method ZeroFill(mem: array<byte>, at: nat, n: nat)
    requires at + n <= mem.Length
    modifies mem
    ensures mem[..] == Splice(old(mem[..]), at, Zeros(n))
  {
    forall j | at <= j < at + n {
      mem[j] := 0;
    }
    assert forall j :: 0 <= j < mem.Length ==> mem[..][j] == Splice(old(mem[..]), at, Zeros(n))[j];
  }

  /** A `uint64_t` store of `v` at `at` on a little-endian host. */
  method StoreU64(mem: array<byte>, at: nat, v: u64)
    requires at + 8 <= mem.Length
    modifies mem
    ensures mem[..] == WriteU64(old(mem[..]), at, v)
  {
    Store(mem, at, EncodeLE(v, 8));
  }
}
