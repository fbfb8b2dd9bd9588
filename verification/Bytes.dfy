/** Memory as bytes: little-endian integers, name buffers and the allocator's block header. */
module Bytes {
  import opened IarmTypes

  newtype byte = x: int | 0 <= x < 256

  const TWO31: int := 0x8000_0000
  const TWO32: int := 0x1_0000_0000
  const TWO63: int := 0x8000_0000_0000_0000
  const TWO64: int := 0x1_0000_0000_0000_0000

  /** The longest array in a message: 64 MiB, by the marshalling rules of the D-Bus Specification. */
  const MAX_ARRAY: int := 0x400_0000

  /** 256 to the power `k`. */
  function Span(k: nat): nat {
    if k == 0 then 1 else 256 * Span(k - 1)
  }

  lemma Spans()
    ensures Span(4) == TWO32 && Span(8) == TWO64
  {
    assert Span(1) == 256 && Span(2) == 0x1_0000 && Span(3) == 0x100_0000 && Span(4) == TWO32;
    assert Span(5) == 0x100_0000_0000 && Span(6) == 0x1_0000_0000_0000 && Span(7) == 0x100_0000_0000_0000;
  }

  /** The low `k` bytes of `n`, least significant first. */
  function ToLE(n: nat, k: nat): (bs: seq<byte>)
    ensures |bs| == k
  {
    if k == 0 then [] else [(n % 256) as byte] + ToLE(n / 256, k - 1)
  }

  function FromLE(bs: seq<byte>): nat {
    if bs == [] then 0 else bs[0] as int + 256 * FromLE(bs[1..])
  }

  lemma {:induction false} LERoundTrip(n: nat, k: nat)
    requires n < Span(k)
    ensures FromLE(ToLE(n, k)) == n
  {
    if k > 0 {
      LERoundTrip(n / 256, k - 1);
      assert ToLE(n, k)[1..] == ToLE(n / 256, k - 1);
    }
  }

  predicate IsInt32(v: int) {
    -TWO31 <= v < TWO31
  }

  /** A C int in memory. */
  function IntBytes(v: int): (bs: seq<byte>)
    requires IsInt32(v)
    ensures |bs| == 4
  {
    ToLE(if v < 0 then v + TWO32 else v, 4)
  }

  function IntAt(bs: seq<byte>, at: nat): int
    requires at + 4 <= |bs|
  {
    var n := FromLE(bs[at..at+4]);
    if n < TWO31 then n else n - TWO32
  }

  lemma IntRoundTrip(bs: seq<byte>, at: nat, v: int)
    requires IsInt32(v) && at + 4 <= |bs| && bs[at..at+4] == IntBytes(v)
    ensures IntAt(bs, at) == v
  {
    Spans();
    LERoundTrip(if v < 0 then v + TWO32 else v, 4);
  }

  /** A size_t in memory. */
  function SizeAt(bs: seq<byte>, at: nat): nat
    requires at + 8 <= |bs|
  {
    FromLE(bs[at..at+8])
  }

  lemma SizeRoundTrip(bs: seq<byte>, at: nat, n: nat)
    requires n < TWO64 && at + 8 <= |bs| && bs[at..at+8] == ToLE(n, 8)
    ensures SizeAt(bs, at) == n
  {
    Spans();
    LERoundTrip(n, 8);
  }

  /** Characters a C string can hold: single bytes other than the terminator. */
  predicate IsText(s: string) {
    forall i | 0 <= i < |s| :: 0 < s[i] as int < 256
  }

  /** A name buffer after a bounded copy that pads with zeros and terminates. */
  function NameBytes(s: string): (bs: seq<byte>)
    requires IsText(s)
    ensures |bs| == MAX_NAME_LEN
  {
    seq(MAX_NAME_LEN, i requires 0 <= i < MAX_NAME_LEN =>
      if i < |s| && i < MAX_NAME_LEN - 1 then s[i] as int as byte else 0)
  }

  /** The characters before the first zero byte. */
  function TextOf(bs: seq<byte>): (s: string)
    ensures |s| <= |bs|
  {
    if bs == [] || bs[0] == 0 then "" else [bs[0] as int as char] + TextOf(bs[1..])
  }

  lemma {:induction false} TextPrefix(bs: seq<byte>, s: string)
    requires IsText(s) && |s| < |bs| && bs[|s|] == 0
    requires forall i | 0 <= i < |s| :: bs[i] == s[i] as int as byte
    ensures TextOf(bs) == s
  {
    if s != "" {
      assert bs[1..][|s|-1] == bs[|s|];
      TextPrefix(bs[1..], s[1..]);
      assert s == [s[0]] + s[1..];
    }
  }

  /** A name buffer gives back the first 63 characters of what was copied in. */
  lemma NameRoundTrip(s: string)
    requires IsText(s)
    ensures TextOf(NameBytes(s)) == Trunc(s, MAX_NAME_LEN - 1)
  {
    TextPrefix(NameBytes(s), Trunc(s, MAX_NAME_LEN - 1));
  }

  // ---------------------------------------------------------------- allocator blocks

  /** _IARM_MEM_EXTRA_ALLOC_SIZE: the size prefix and the magic word with its slack. */
  const HEADER: nat := 16
  /** _IARM_MEM_HEADER_MAGIC + IARM_MEMTYPE_PROCESSLOCAL */
  const MAGIC: nat := 0xBADBEEF0 + 2

  /** `b` is a block whose header announces `size` bytes of process-local memory. */
  ghost predicate IsBlock(b: seq<byte>, size: nat) {
    && |b| == HEADER + size
    && b[0..8] == ToLE(size, 8)
    && b[8..12] == ToLE(MAGIC, 4)
  }

  lemma BlockSize(b: seq<byte>, size: nat)
    requires size < TWO63 && IsBlock(b, size)
    ensures SizeAt(b, 0) == size
  {
    SizeRoundTrip(b, 0, size);
  }
}
