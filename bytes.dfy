/**
 * Fixed-width unsigned integers, little-endian byte encodings and the two
 * C string routines (strncmp, strncpy) that the XNU loader applies to byte
 * buffers.  Memory is a sequence of bytes; a C `uint64_t` is a `u64`.
 */
module Bytes {

  type byte = x: int | 0 <= x < 0x100
  type u16 = x: int | 0 <= x < 0x1_0000
  type u32 = x: int | 0 <= x < 0x1_0000_0000
  type u64 = x: int | 0 <= x < 0x1_0000_0000_0000_0000

  const U64_MODULUS: int := 0x1_0000_0000_0000_0000

  /** The value that C's `uint64_t` arithmetic keeps of the exact result `x`. */
  function Wrap64(x: int): (r: u64)
    ensures 0 <= x < U64_MODULUS ==> r == x
    ensures U64_MODULUS <= x < 2 * U64_MODULUS ==> r == x - U64_MODULUS
    ensures -U64_MODULUS <= x < 0 ==> r == x + U64_MODULUS
  {
    x % U64_MODULUS
  }

  function Pow256(n: nat): (r: nat)
    ensures r > 0
  {
    if n == 0 then 1 else 0x100 * Pow256(n - 1)
  }

  /** The low `n` bytes of `v`, least significant first. */
  function EncodeLE(v: nat, n: nat): (bs: seq<byte>)
    ensures |bs| == n
  {
    if n == 0 then [] else [v % 0x100] + EncodeLE(v / 0x100, n - 1)
  }

  /** The number whose little-endian encoding is `bs`. */
  function DecodeLE(bs: seq<byte>): (v: nat)
    ensures v < Pow256(|bs|)
  {
    if bs == [] then 0 else bs[0] + 0x100 * DecodeLE(bs[1..])
  }

  lemma {:induction false} DecodeEncodeLE(v: nat, n: nat)
    requires v < Pow256(n)
    ensures DecodeLE(EncodeLE(v, n)) == v
  {
    if n > 0 {
      assert v / 0x100 < Pow256(n - 1);
      DecodeEncodeLE(v / 0x100, n - 1);
      assert EncodeLE(v, n)[1..] == EncodeLE(v / 0x100, n - 1);
    }
  }

  lemma {:induction false} EncodeDecodeLE(bs: seq<byte>)
    ensures EncodeLE(DecodeLE(bs), |bs|) == bs
  {
    if bs != [] {
      var v := DecodeLE(bs);
      assert v % 0x100 == bs[0] && v / 0x100 == DecodeLE(bs[1..]);
      EncodeDecodeLE(bs[1..]);
    }
  }

  /** The 64-bit word a `uint64_t *` load reads at `at` on a little-endian host. */
  function ReadU64(buf: seq<byte>, at: nat): (w: u64)
    requires at + 8 <= |buf|
  {
    Pow256Eight();
    DecodeLE(buf[at..at + 8])
  }

  lemma Pow256Eight()
    ensures Pow256(8) == U64_MODULUS
  {
    assert Pow256(4) == 0x1_0000_0000;
  }

  /** `buf` with the bytes from `at` on replaced by `bs`. */
  function Splice(buf: seq<byte>, at: nat, bs: seq<byte>): (r: seq<byte>)
    requires at + |bs| <= |buf|
    ensures |r| == |buf|
    ensures r[at..at + |bs|] == bs
    ensures forall k :: 0 <= k < |buf| && !(at <= k < at + |bs|) ==> r[k] == buf[k]
  {
    seq(|buf|, k requires 0 <= k < |buf| => if at <= k < at + |bs| then bs[k - at] else buf[k])
  }

  /** `buf` after a `uint64_t` store of `v` at `at`. */
  function WriteU64(buf: seq<byte>, at: nat, v: u64): (r: seq<byte>)
    requires at + 8 <= |buf|
    ensures |r| == |buf|
  {
    Splice(buf, at, EncodeLE(v, 8))
  }

  lemma ReadAfterWriteU64(buf: seq<byte>, at: nat, v: u64)
    requires at + 8 <= |buf|
    ensures ReadU64(WriteU64(buf, at, v), at) == v
  {
    Pow256Eight();
    DecodeEncodeLE(v, 8);
  }

  /** The bytes of an ASCII string literal (no terminating NUL). */
  function Ascii(s: string): (bs: seq<byte>)
    requires forall i :: 0 <= i < |s| ==> s[i] as int < 0x80
    ensures |bs| == |s|
  {
    seq(|s|, i requires 0 <= i < |s| => s[i] as int)
  }

  /** A C string: bytes up to, and not including, the terminating NUL. */
  predicate IsCString(s: seq<byte>)
  {
    forall i :: 0 <= i < |s| ==> s[i] != 0
  }

  function Min(a: nat, b: nat): nat
  {
    if a <= b then a else b
  }

  /** How many bytes `strncmp(p, s, n)` inspects when `p` agrees with `s`
      throughout: `n` at most, and no byte past the NUL that ends `s`. */
  function CompareSpan(s: seq<byte>, n: nat): nat
  {
    Min(n, |s| + 1)
  }

  /** `strncmp(buf + at, s, n) == 0` for a C string `s`: the first
      `CompareSpan(s, n)` bytes at `at` spell `s` followed by its NUL. */
  predicate StrNCmpEq(buf: seq<byte>, at: nat, s: seq<byte>, n: nat)
    requires at + CompareSpan(s, n) <= |buf|
  {
    forall k :: 0 <= k < CompareSpan(s, n) ==> buf[at + k] == (s + [0])[k]
  }

  /** The string a C reader finds in `bs`: the bytes before the first NUL. */
  function CString(bs: seq<byte>): (s: seq<byte>)
    ensures IsCString(s) && |s| <= |bs| && s == bs[..|s|]
    ensures |s| < |bs| ==> bs[|s|] == 0
  {
    if bs == [] || bs[0] == 0 then [] else [bs[0]] + CString(bs[1..])
  }

  /** A buffer without a NUL is read whole. */
  lemma {:induction false} CStringOfCString(s: seq<byte>)
    requires IsCString(s)
    ensures CString(s) == s
  {
    if s != [] {
      CStringOfCString(s[1..]);
      assert s == [s[0]] + s[1..];
    }
  }

  /** `strncmp` reports equality exactly when the compared span of the
      buffer equals the string with its NUL, cut to that span: the first
      `n` bytes when `n` does not reach the NUL, otherwise the whole
      string and its NUL. */
  lemma StrNCmpEqSpan(buf: seq<byte>, at: nat, s: seq<byte>, n: nat)
    requires at + CompareSpan(s, n) <= |buf|
    ensures StrNCmpEq(buf, at, s, n) <==> buf[at..at + CompareSpan(s, n)] == (s + [0])[..CompareSpan(s, n)]
    ensures n <= |s| ==> (StrNCmpEq(buf, at, s, n) <==> buf[at..at + n] == s[..n])
    ensures n > |s| ==> (StrNCmpEq(buf, at, s, n) <==> buf[at..at + |s| + 1] == s + [0])
  {
    var m := CompareSpan(s, n);
    if StrNCmpEq(buf, at, s, n) {
      assert buf[at..at + m] == (s + [0])[..m];
    }
    if n <= |s| {
      assert (s + [0])[..m] == s[..n];
    } else {
      assert (s + [0])[..m] == s + [0];
    }
  }

  /** The `n` bytes that `strncpy(dst, s, n)` stores into `dst`: the
      characters of `s` up to its first NUL, truncated to `n`, then NUL
      padding up to `n`. */
  function StrNCpy(s: seq<byte>, n: nat): (r: seq<byte>)
    ensures |r| == n
    ensures forall k :: 0 <= k < n && k < |CString(s)| ==> r[k] == s[k]
    ensures forall k :: |CString(s)| <= k < n ==> r[k] == 0
  {
    var len := |CString(s)|;
    seq(n, k requires 0 <= k < n => if k < len then s[k] else 0)
  }
}
