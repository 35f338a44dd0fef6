/**
 * Packed bit slices (c_lib/lib/tableau.h, c_lib/src/tableau.c).
 *
 * A slice is a run of 64-bit words; bit `index` of a slice lives in word
 * `index / 64` at offset `index % 64`.  A 64-bit word is modelled as its
 * 64 bits (bit `b` carries weight 2^b), and the C bitwise operators become
 * bit-by-bit operations on those sequences.
 */
module Bits {

  /** Bits per packed word (CHUNK_SIZE_BITS). */
  const WORD_BITS: nat := 64

  /** A uint64_t, as its 64 bits, least significant first. */
  type Word = w: seq<bool> | |w| == 64 witness seq(64, b => false)

  /** The all-zero word. */
  function Zero(): Word { seq(64, b requires 0 <= b < 64 => false) }

  /** The word holding the value 1 (`1ull`). */
  function One(): Word { seq(64, b requires 0 <= b < 64 => b == 0) }

  /** Value returned by the trailing-zero scan of an empty slice: `~0ll` read as a size_t. */
  const CTZ_SENTINEL: nat := 0xFFFF_FFFF_FFFF_FFFF

  function And(a: Word, c: Word): Word { seq(64, b requires 0 <= b < 64 => a[b] && c[b]) }

  function Or(a: Word, c: Word): Word { seq(64, b requires 0 <= b < 64 => a[b] || c[b]) }

  function Xor(a: Word, c: Word): Word { seq(64, b requires 0 <= b < 64 => a[b] != c[b]) }

  function Not(a: Word): Word { seq(64, b requires 0 <= b < 64 => !a[b]) }

  /** `w << o` for a shift amount below the word width. */
  function Shl(w: Word, o: nat): Word
    requires o < 64
  {
    seq(64, b requires 0 <= b < 64 => b >= o && w[b - o])
  }

  /** `1ull & value` for an unsigned `value`: the word holding its lowest bit. */
  function LowBit(value: nat): Word
  {
    seq(64, b requires 0 <= b < 64 => b == 0 && value % 2 == 1)
  }

  /** The abstract bit `index` of a slice. */
  predicate Bit(slice: seq<Word>, index: nat)
    requires index / 64 < |slice|
  {
    slice[index / 64][index % 64]
  }

  /**
   * `__inline_slice_get_bit`: mask the word and collapse it with `!!`.
   * The result is 0 or 1, and it is 1 exactly when the bit is set.
   */
  function SliceGetBit(slice: seq<Word>, index: nat): (bit: nat)
    requires index / 64 < |slice|
    ensures bit <= 1
    ensures bit == 1 <==> Bit(slice, index)
  {
    var masked := And(slice[index / 64], Shl(One(), index % 64));
    assert forall b :: 0 <= b < 64 ==> masked[b] == (b == index % 64 && Bit(slice, index));
    assert !Zero()[index % 64];
    if masked != Zero() then 1 else 0
  }

  /** The word `w` with bit `o` cleared and then or-ed with the low bit of `value`. */
  function WordWithBit(w: Word, o: nat, value: nat): (r: Word)
    requires o < 64
    ensures r[o] == (value % 2 == 1)
    ensures forall b :: 0 <= b < 64 && b != o ==> r[b] == w[b]
  {
    Or(And(w, Not(Shl(One(), o))), Shl(LowBit(value), o))
  }

  /** `__inline_slice_set_bit` on the value of a slice. */
  function WithBit(slice: seq<Word>, index: nat, value: nat): (r: seq<Word>)
    requires index / 64 < |slice|
    ensures |r| == |slice|
    ensures forall w :: 0 <= w < |slice| && w != index / 64 ==> r[w] == slice[w]
  {
    slice[index / 64 := WordWithBit(slice[index / 64], index % 64, value)]
  }

  /** Reading back the bit just written gives the low bit of the written value. */
  lemma GetAfterSet(slice: seq<Word>, index: nat, value: nat)
    requires index / 64 < |slice|
    ensures SliceGetBit(WithBit(slice, index, value), index) == value % 2
  {
    var r := WithBit(slice, index, value);
    assert Bit(r, index) == (value % 2 == 1);
  }

  /** Setting one bit leaves every other bit of the slice as it was. */
  lemma SetKeepsOtherBits(slice: seq<Word>, index: nat, value: nat, k: nat)
    requires index / 64 < |slice| && k / 64 < |slice| && k != index
    ensures SliceGetBit(WithBit(slice, index, value), k) == SliceGetBit(slice, k)
  {
    var r := WithBit(slice, index, value);
    if k / 64 == index / 64 {
      assert k % 64 != index % 64;
      assert r[k / 64][k % 64] == slice[k / 64][k % 64];
    }
  }

  /** The bit view of a freshly set slice, for every in-range bit at once. */
  lemma BitsOfWithBit(slice: seq<Word>, index: nat, value: nat)
    requires index / 64 < |slice|
    ensures forall k: nat {:trigger Bit(WithBit(slice, index, value), k)} :: k / 64 < |slice| ==>
      Bit(WithBit(slice, index, value), k) == if k == index then value % 2 == 1 else Bit(slice, k)
  {
    forall k: nat | k / 64 < |slice|
      ensures Bit(WithBit(slice, index, value), k) == if k == index then value % 2 == 1 else Bit(slice, k)
    {
      if k != index { SetKeepsOtherBits(slice, index, value, k); }
    }
  }

  /** Two slices of the same length with the same bits are the same slice. */
  lemma SliceExt(a: seq<Word>, c: seq<Word>)
    requires |a| == |c|
    requires forall k: nat :: k / 64 < |a| ==> Bit(a, k) == Bit(c, k)
    ensures a == c
  {
    forall w | 0 <= w < |a| ensures a[w] == c[w] {
      forall b | 0 <= b < 64 ensures a[w][b] == c[w][b] {
        var k: nat := 64 * w + b;
        assert k / 64 == w && k % 64 == b;
        assert Bit(a, k) == Bit(c, k);
      }
    }
  }

  /** `slice_set_bit` / `__inline_slice_set_bit`: clear the bit, then or in the new one. */
  method SliceSetBit(slice: array<Word>, index: nat, value: nat)
    requires index / 64 < slice.Length
    modifies slice
    ensures slice[..] == WithBit(old(slice[..]), index, value)
  {
    var w := index / 64;
    slice[w] := And(slice[w], Not(Shl(One(), index % 64)));
    slice[w] := Or(slice[w], Shl(LowBit(value), index % 64));
  }

  /** `__atomic_and_fetch` on one word of a slice. */
  method AtomicAndFetch(slice: array<Word>, w: nat, mask: Word) returns (r: Word)
    requires w < slice.Length
    modifies slice
    ensures r == And(old(slice[w]), mask)
    ensures slice[..] == old(slice[..])[w := r]
  {
    r := And(slice[w], mask);
    slice[w] := r;
  }

  /** `__atomic_or_fetch` on one word of a slice. */
  method AtomicOrFetch(slice: array<Word>, w: nat, mask: Word) returns (r: Word)
    requires w < slice.Length
    modifies slice
    ensures r == Or(old(slice[w]), mask)
    ensures slice[..] == old(slice[..])[w := r]
  {
    r := Or(slice[w], mask);
    slice[w] := r;
  }

  /**
   * `__inline_slice_set_bit_atomic`: the same clear-then-or as SliceSetBit,
   * each half an atomic read-modify-write of the word.
   */
  method AtomicSliceSetBit(slice: array<Word>, index: nat, value: nat)
    requires index / 64 < slice.Length
    modifies slice
    ensures slice[..] == WithBit(old(slice[..]), index, value)
  {
    var w := index / 64;
    var _ := AtomicAndFetch(slice, w, Not(Shl(One(), index % 64)));
    var _ := AtomicOrFetch(slice, w, Shl(LowBit(value), index % 64));
  }

  /** Index of the lowest set bit of a non-zero word at or above `from` (`__builtin_ctzll`). */
  function LowestSetFrom(w: Word, from: nat): (k: nat)
    requires from < 64
    requires exists j :: from <= j < 64 && w[j]
    ensures from <= k < 64 && w[k]
    ensures forall j :: from <= j < k ==> !w[j]
    decreases 64 - from
  {
    if w[from] then from else LowestSetFrom(w, from + 1)
  }

  /** `__CHUNK_CTZ` (`__builtin_ctzll`) of a non-zero word: the position of its lowest set bit. */
  function ChunkCtz(w: Word): (k: nat)
    requires w != Zero()
    ensures k < 64 && w[k]
    ensures forall j :: 0 <= j < k ==> !w[j]
  {
    LowestSetFrom(w, 0)
  }

  /**
   * SLICE_LEN_BYTES(n, s): bytes needed for `n` bits, rounded up to a whole
   * number of `s`-byte strides.  Note the rounding term is guarded by
   * `n % (s * 8)`, not by `n % 8`.
   */
  function SliceLenBytes(n: nat, s: nat): nat
    requires s > 0
  {
    n / 8 + (if n % (s * 8) != 0 then 1 else 0) * (s - (n / 8) % s)
  }

  /** SLICE_LEN(n, s): the number of `s`-byte strides. */
  function SliceLen(n: nat, s: nat): nat
    requires s > 0
  {
    SliceLenBytes(n, s) / s
  }

  /** SLICE_LEN_SIZE_T(n): the number of 8-byte words. */
  function SliceLenSizeT(n: nat): nat
  {
    SliceLen(n, 8)
  }

  /** Ceiling division. */
  function CeilDiv(a: nat, d: nat): (q: nat)
    requires d > 0
    ensures q * d >= a && (q == 0 || (q - 1) * d < a)
  {
    (a + d - 1) / d
  }

  lemma MulLe(d: nat, a: nat, b: nat)
    requires a <= b
    ensures d * a <= d * b
  {
    assert d * b == d * a + d * (b - a);
  }

  lemma DivModUnique(n: nat, d: nat, q: nat, r: nat)
    requires d > 0 && r < d && n == d * q + r
    ensures n / d == q && n % d == r
  {
    var q', r' := n / d, n % d;
    assert n == d * q' + r';
    if q' < q {
      MulLe(d, q' + 1, q);
    } else if q' > q {
      MulLe(d, q + 1, q');
    }
  }

  /**
   * SLICE_LEN_BYTES is a whole number of strides, covers all `n` bits, and
   * SLICE_LEN is the ceiling of `n / (8 * s)`.
   */
  lemma SliceLenBytesSound(n: nat, s: nat)
    requires s > 0
    ensures SliceLenBytes(n, s) % s == 0
    ensures 8 * SliceLenBytes(n, s) >= n
    ensures SliceLen(n, s) == CeilDiv(n, 8 * s)
  {
    var q, e := n / 8, n % 8;
    var m, t := q / s, q % s;
    assert q == s * m + t;
    assert n == (8 * s) * m + (8 * t + e);
    assert 8 * t + e < 8 * s by {
      assert t <= s - 1;
      assert 8 * t <= 8 * s - 8;
    }
    DivModUnique(n, 8 * s, m, 8 * t + e);
    var bytes := SliceLenBytes(n, s);
    if 8 * t + e == 0 {
      assert bytes == s * m;
      DivModUnique(bytes, s, m, 0);
      DivModUnique(n + 8 * s - 1, 8 * s, m, 8 * s - 1);
    } else {
      assert bytes == q + (s - t);
      assert bytes == s * (m + 1);
      DivModUnique(bytes, s, m + 1, 0);
      DivModUnique(n + 8 * s - 1, 8 * s, m + 1, 8 * t + e - 1);
    }
  }

  /** Bits below `n` fall in the first SLICE_LEN_SIZE_T(n) words. */
  lemma BitInSliceLen(n: nat, k: nat)
    requires k < n
    ensures k / 64 < SliceLenSizeT(n)
  {
    SliceLenBytesSound(n, 8);
  }
}
