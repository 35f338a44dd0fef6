/**
 * The stabilizer tableau object (c_lib/lib/tableau.h, c_lib/src/tableau.c).
 *
 * A tableau over `n` qubits keeps, per qubit, one X slice and one Z slice
 * (rows of packed bits, reached through a table of row pointers) and one
 * shared phase slice.  Rows are buffers of `rowWords` words; the kernels
 * work on the first `sliceLen` of them.  The pointer tables are arrays whose
 * elements are the row buffers' contents, so exchanging two pointers is
 * exchanging two elements.
 */
module Tableaux {
  import opened Bits

  /** Alignment and padding unit of every row buffer, in bytes (CACHE_SIZE). */
  const CACHE_SIZE: nat := 64

  datatype Orientation = ColMajor | RowMajor

  /** The content of a tableau: its X rows, its Z rows and its phase slice. */
  datatype TabState = TabState(xs: seq<seq<Word>>, zs: seq<seq<Word>>, ph: seq<Word>)

  /** As many X rows as Z rows, and every row as long as the phase slice. */
  predicate WellFormed(s: TabState)
  {
    |s.xs| == |s.zs|
    && (forall i :: 0 <= i < |s.xs| ==> |s.xs[i]| == |s.ph|)
    && (forall i :: 0 <= i < |s.zs| ==> |s.zs[i]| == |s.ph|)
  }

  /** Words per row buffer as tableau_create allocates them: whole cache lines. */
  function RowWords(n: nat): nat
  {
    CeilDiv(CeilDiv(n, 8), CACHE_SIZE) * (CACHE_SIZE / 8)
  }

  /** Words the kernels process, as tableau_create computes them. */
  function CreateSliceLen(n: nat): nat
  {
    CeilDiv(CeilDiv(n, 8), 8)
  }

  /** tableau_create's slice length agrees with SLICE_LEN_SIZE_T and fits in the row buffer. */
  lemma CreateSliceLenSound(n: nat)
    ensures CreateSliceLen(n) == SliceLenSizeT(n)
    ensures CreateSliceLen(n) <= RowWords(n) && n <= 64 * CreateSliceLen(n)
  {
    SliceLenBytesSound(n, 8);
    var bytes := CeilDiv(n, 8);
    var c := CeilDiv(bytes, 8);
    assert 64 * c >= n;
    assert c == 0 || 64 * (c - 1) < n;
    CeilDivUnique(n, 64, c);
  }

  lemma CeilDivUnique(a: nat, d: nat, q: nat)
    requires d > 0
    requires q * d >= a && (q == 0 || (q - 1) * d < a)
    ensures q == CeilDiv(a, d)
  {
    var c := CeilDiv(a, d);
    if q < c {
      MulLe(d, q, c - 1);
    } else if c < q {
      MulLe(d, c, q - 1);
    }
  }

  /** Ceilings of quotients grow with the dividend. */
  lemma CeilDivMono(a: nat, b: nat, d: nat)
    requires d > 0 && a <= b
    ensures CeilDiv(a, d) <= CeilDiv(b, d)
  {
    var ca, cb := CeilDiv(a, d), CeilDiv(b, d);
    if ca > cb {
      MulLe(d, cb, ca - 1);
    }
  }

  /** A smaller qubit count never needs more words than the row buffers hold. */
  lemma SliceLenFits(n: nat, capacity: nat)
    requires n <= capacity
    ensures SliceLenSizeT(n) <= RowWords(capacity)
  {
    CreateSliceLenSound(n);
    CreateSliceLenSound(capacity);
    CeilDivMono(n, capacity, 8);
    CeilDivMono(CeilDiv(n, 8), CeilDiv(capacity, 8), 8);
  }

  /** No bit of the first `words` words is set. */
  predicate EmptyPrefix(slice: seq<Word>, words: nat)
    requires words <= |slice|
  {
    forall k: nat :: k < 64 * words ==> !Bit(slice, k)
  }

  /**
   * `tableau_ctz`: the index of the first set bit among the first `sliceLen`
   * words, or CTZ_SENTINEL when there is none.
   */
  method Ctz(slice: seq<Word>, sliceLen: nat) returns (idx: nat)
    requires sliceLen <= |slice|
    requires 64 * sliceLen <= CTZ_SENTINEL
    ensures idx == CTZ_SENTINEL <==> EmptyPrefix(slice, sliceLen)
    ensures idx != CTZ_SENTINEL ==>
      idx < 64 * sliceLen && Bit(slice, idx) && forall k: nat :: k < idx ==> !Bit(slice, k)
  {
    var i := 0;
    while i < sliceLen
      invariant 0 <= i <= sliceLen
      invariant forall k: nat :: k < 64 * i ==> !Bit(slice, k)
    {
      if slice[i] != Zero() {
        var c := ChunkCtz(slice[i]);
        idx := 64 * i + c;
        assert idx / 64 == i && idx % 64 == c;
        assert Bit(slice, idx);
        forall k: nat | k < idx ensures !Bit(slice, k) {
          if k >= 64 * i {
            assert k / 64 == i && k % 64 < c;
          }
        }
        return;
      }
      forall k: nat | k < 64 * (i + 1) ensures !Bit(slice, k) {
        if k >= 64 * i {
          assert k / 64 == i;
          assert !Zero()[k % 64];
        }
      }
      i := i + 1;
    }
    idx := CTZ_SENTINEL;
  }

  /** `slice_empty`: whether the first `sliceLen` words hold no set bit. */
  method SliceEmpty(slice: seq<Word>, sliceLen: nat) returns (empty: bool)
    requires sliceLen <= |slice|
    requires 64 * sliceLen <= CTZ_SENTINEL
    ensures empty <==> EmptyPrefix(slice, sliceLen)
  {
    var idx := Ctz(slice, sliceLen);
    empty := idx == CTZ_SENTINEL;
  }

  /** Row `i` with the bit at column `t` replaced by the same bit of `from`. */
  function RowWithBitOf(row: seq<Word>, t: nat, from: seq<Word>): (r: seq<Word>)
    requires t / 64 < |row| && t / 64 < |from|
    ensures |r| == |row|
  {
    WithBit(row, t, SliceGetBit(from, t))
  }

  /**
   * `tableau_transverse_hadamard`: in each of the first `n` rows, exchange
   * the X bit and the Z bit of column `t`.
   */
  function TransverseH(s: TabState, t: nat, n: nat): (r: TabState)
    requires WellFormed(s) && t / 64 < |s.ph| && n <= |s.xs|
    ensures WellFormed(r) && |r.xs| == |s.xs| && |r.ph| == |s.ph|
  {
    TabState(
      seq(|s.xs|, i requires 0 <= i < |s.xs| => if i < n then RowWithBitOf(s.xs[i], t, s.zs[i]) else s.xs[i]),
      seq(|s.zs|, i requires 0 <= i < |s.zs| => if i < n then RowWithBitOf(s.zs[i], t, s.xs[i]) else s.zs[i]),
      s.ph)
  }

  /** Overwriting a bit twice keeps the second value. */
  lemma WithBitTwice(row: seq<Word>, t: nat, v1: nat, v2: nat)
    requires t / 64 < |row|
    ensures WithBit(WithBit(row, t, v1), t, v2) == WithBit(row, t, v2)
  {
    var a, c := WithBit(WithBit(row, t, v1), t, v2), WithBit(row, t, v2);
    assert a[t / 64] == c[t / 64];
  }

  /** Writing a bit's own value back changes nothing. */
  lemma WithOwnBit(row: seq<Word>, t: nat)
    requires t / 64 < |row|
    ensures WithBit(row, t, SliceGetBit(row, t)) == row
  {
    var a := WithBit(row, t, SliceGetBit(row, t));
    assert a[t / 64] == row[t / 64];
  }

  /** The transverse Hadamard exchanges the X and Z bit of column `t` and nothing else. */
  lemma TransverseHBits(s: TabState, t: nat, n: nat, i: nat, k: nat)
    requires WellFormed(s) && t / 64 < |s.ph| && n <= |s.xs| && i < |s.xs| && k / 64 < |s.ph|
    ensures var r := TransverseH(s, t, n);
      (Bit(r.xs[i], k) == if i < n && k == t then Bit(s.zs[i], k) else Bit(s.xs[i], k))
      && (Bit(r.zs[i], k) == if i < n && k == t then Bit(s.xs[i], k) else Bit(s.zs[i], k))
  {
    if i < n {
      BitsOfWithBit(s.xs[i], t, SliceGetBit(s.zs[i], t));
      BitsOfWithBit(s.zs[i], t, SliceGetBit(s.xs[i], t));
    }
  }

  /** Applying the transverse Hadamard twice restores the tableau. */
  lemma {:induction false} TransverseHInvolution(s: TabState, t: nat, n: nat)
    requires WellFormed(s) && t / 64 < |s.ph| && n <= |s.xs|
    ensures TransverseH(TransverseH(s, t, n), t, n) == s
  {
    var s1 := TransverseH(s, t, n);
    var s2 := TransverseH(s1, t, n);
    forall i | 0 <= i < |s.xs| ensures s2.xs[i] == s.xs[i] && s2.zs[i] == s.zs[i] {
      if i < n {
        GetAfterSet(s.zs[i], t, SliceGetBit(s.xs[i], t));
        GetAfterSet(s.xs[i], t, SliceGetBit(s.zs[i], t));
        WithBitTwice(s.xs[i], t, SliceGetBit(s.zs[i], t), SliceGetBit(s.xs[i], t));
        WithBitTwice(s.zs[i], t, SliceGetBit(s.xs[i], t), SliceGetBit(s.zs[i], t));
        WithOwnBit(s.xs[i], t);
        WithOwnBit(s.zs[i], t);
      }
    }
  }

  /**
   * The naive transpose of the leading n-by-n block of a set of rows: bit
   * `q` of row `p` becomes bit `p` of row `q`; bits and rows outside the
   * block stay where they are.
   */
  function Transposed(rows: seq<seq<Word>>, n: nat, words: nat): (r: seq<seq<Word>>)
    requires n <= |rows| && n <= 64 * words
    requires forall i :: 0 <= i < |rows| ==> |rows[i]| == words
    ensures |r| == |rows| && forall i :: 0 <= i < |r| ==> |r[i]| == words
  {
    seq(|rows|, p requires 0 <= p < |rows| =>
      if p < n then
        seq(words, w requires 0 <= w < words =>
          seq(64, b requires 0 <= b < 64 =>
            if 64 * w + b < n then Bit(rows[64 * w + b], p) else rows[p][w][b]))
      else rows[p])
  }

  /** Bit view of Transposed. */
  lemma TransposedBit(rows: seq<seq<Word>>, n: nat, words: nat, p: nat, q: nat)
    requires n <= |rows| && n <= 64 * words
    requires forall i :: 0 <= i < |rows| ==> |rows[i]| == words
    requires p < |rows| && q < 64 * words
    ensures Bit(Transposed(rows, n, words)[p], q) == if p < n && q < n then Bit(rows[q], p) else Bit(rows[p], q)
  {
    assert q / 64 < words;
    if p < n {
      assert 64 * (q / 64) + q % 64 == q;
    }
  }

  /** Transposing twice restores the rows. */
  lemma TransposedInvolution(rows: seq<seq<Word>>, n: nat, words: nat)
    requires n <= |rows| && n <= 64 * words
    requires forall i :: 0 <= i < |rows| ==> |rows[i]| == words
    ensures Transposed(Transposed(rows, n, words), n, words) == rows
  {
    var t1 := Transposed(rows, n, words);
    var t2 := Transposed(t1, n, words);
    forall p | 0 <= p < |rows| ensures t2[p] == rows[p] {
      forall k: nat | k / 64 < |rows[p]| ensures Bit(t2[p], k) == Bit(rows[p], k) {
        TransposedBit(t1, n, words, p, k);
        if p < n && k < n {
          TransposedBit(rows, n, words, k, p);
        } else {
          TransposedBit(rows, n, words, p, k);
        }
      }
      SliceExt(t2[p], rows[p]);
    }
  }

  /** One step of the naive transpose: exchange bit j of row i with bit i of row j. */
  function SwapBits(rows: seq<seq<Word>>, i: nat, j: nat): (r: seq<seq<Word>>)
    requires i < |rows| && j < |rows| && i != j && j / 64 < |rows[i]| && i / 64 < |rows[j]|
    ensures |r| == |rows| && forall p :: 0 <= p < |rows| ==> |r[p]| == |rows[p]|
  {
    var valA := SliceGetBit(rows[i], j);
    var valB := SliceGetBit(rows[j], i);
    rows[i := WithBit(rows[i], j, valB)][j := WithBit(rows[j], i, valA)]
  }

  /** The body of the naive transpose's inner loop on one pointer table. */
  method SwapBitPair(rows: array<seq<Word>>, i: nat, j: nat)
    requires i < rows.Length && j < rows.Length && i != j && j / 64 < |rows[i]| && i / 64 < |rows[j]|
    modifies rows
    ensures rows[..] == SwapBits(old(rows[..]), i, j)
  {
    var valA := SliceGetBit(rows[i], j);
    var valB := SliceGetBit(rows[j], i);
    rows[i] := WithBit(rows[i], j, valB);
    rows[j] := WithBit(rows[j], i, valA);
  }

  /** Whether the naive transpose has exchanged the pair (p, q) before reaching step (i, j). */
  predicate PairDone(p: nat, q: nat, i: nat, j: nat)
  {
    (p < q && (p < i || (p == i && q < j))) || (q < p && (q < i || (q == i && p < j)))
  }

  /** The bits of `cur` are those of `orig` with every pair done before step (i, j) exchanged. */
  ghost predicate SwappedUpTo(cur: seq<seq<Word>>, orig: seq<seq<Word>>, n: nat, words: nat, i: nat, j: nat)
    requires n <= |orig| == |cur| && n <= 64 * words
    requires forall p :: 0 <= p < |orig| ==> |orig[p]| == words && |cur[p]| == words
  {
    forall p: nat, q: nat {:trigger Bit(cur[p], q)} :: p < |orig| && q < 64 * words ==>
      Bit(cur[p], q) == if p < n && q < n && PairDone(p, q, i, j) then Bit(orig[q], p) else Bit(orig[p], q)
  }

  /** Step (i, j) of the naive transpose extends the exchanged pairs by exactly (i, j). */
  lemma SwapBitsStep(cur: seq<seq<Word>>, orig: seq<seq<Word>>, n: nat, words: nat, i: nat, j: nat)
    requires n <= |orig| == |cur| && n <= 64 * words
    requires forall p :: 0 <= p < |orig| ==> |orig[p]| == words && |cur[p]| == words
    requires i < j < n
    requires SwappedUpTo(cur, orig, n, words, i, j)
    ensures SwappedUpTo(SwapBits(cur, i, j), orig, n, words, i, j + 1)
  {
    var next := SwapBits(cur, i, j);
    var valA := SliceGetBit(cur[i], j);
    var valB := SliceGetBit(cur[j], i);
    BitsOfWithBit(cur[i], j, valB);
    BitsOfWithBit(cur[j], i, valA);
    assert Bit(cur[i], j) == Bit(orig[i], j);
    assert Bit(cur[j], i) == Bit(orig[j], i);
    forall p: nat, q: nat | p < |orig| && q < 64 * words
      ensures Bit(next[p], q) == if p < n && q < n && PairDone(p, q, i, j + 1) then Bit(orig[q], p) else Bit(orig[p], q)
    {
      if p == i {
        assert Bit(next[p], q) == if q == j then valB % 2 == 1 else Bit(cur[i], q);
      } else if p == j {
        assert Bit(next[p], q) == if q == i then valA % 2 == 1 else Bit(cur[j], q);
      } else {
        assert next[p] == cur[p];
      }
    }
  }

  /** Finishing row i of the naive transpose is starting row i + 1. */
  lemma SwappedNextRow(cur: seq<seq<Word>>, orig: seq<seq<Word>>, n: nat, words: nat, i: nat)
    requires n <= |orig| == |cur| && n <= 64 * words
    requires forall p :: 0 <= p < |orig| ==> |orig[p]| == words && |cur[p]| == words
    requires i < n
    requires SwappedUpTo(cur, orig, n, words, i, n)
    ensures SwappedUpTo(cur, orig, n, words, i + 1, i + 2)
  {
    forall p: nat, q: nat | p < n && q < n
      ensures PairDone(p, q, i, n) == PairDone(p, q, i + 1, i + 2)
    {
    }
  }

  /** With every pair exchanged, the rows are the transpose. */
  lemma SwappedAllIsTransposed(cur: seq<seq<Word>>, orig: seq<seq<Word>>, n: nat, words: nat)
    requires n <= |orig| == |cur| && n <= 64 * words
    requires forall p :: 0 <= p < |orig| ==> |orig[p]| == words && |cur[p]| == words
    requires SwappedUpTo(cur, orig, n, words, n, n + 1)
    ensures cur == Transposed(orig, n, words)
  {
    var t := Transposed(orig, n, words);
    forall p | 0 <= p < |orig| ensures cur[p] == t[p] {
      forall k: nat | k / 64 < |cur[p]| ensures Bit(cur[p], k) == Bit(t[p], k) {
        TransposedBit(orig, n, words, p, k);
        assert k < 64 * words;
      }
      SliceExt(cur[p], t[p]);
    }
  }

  /** Exchange rows i and j. */
  function SwapRows(rows: seq<seq<Word>>, i: nat, j: nat): (r: seq<seq<Word>>)
    requires i < |rows| && j < |rows|
    ensures |r| == |rows|
  {
    rows[i := rows[j]][j := rows[i]]
  }

  /** `tableau_idx_swap_transverse` on the phases: exchange phase bits i and j. */
  function SwapPhaseBits(ph: seq<Word>, i: nat, j: nat): (r: seq<Word>)
    requires i / 64 < |ph| && j / 64 < |ph|
    ensures |r| == |ph|
  {
    WithBit(WithBit(ph, i, SliceGetBit(ph, j)), j, SliceGetBit(ph, i))
  }

  /** Exchanging phase bits i and j swaps exactly those two bits. */
  lemma SwapPhaseBitsBits(ph: seq<Word>, i: nat, j: nat, k: nat)
    requires i / 64 < |ph| && j / 64 < |ph| && k / 64 < |ph|
    ensures Bit(SwapPhaseBits(ph, i, j), k) ==
      if k == j then Bit(ph, i) else if k == i then Bit(ph, j) else Bit(ph, k)
  {
    BitsOfWithBit(ph, i, SliceGetBit(ph, j));
    BitsOfWithBit(WithBit(ph, i, SliceGetBit(ph, j)), j, SliceGetBit(ph, i));
  }

  /** Exchanging the same two phase bits twice restores the phases. */
  lemma SwapPhaseBitsInvolution(ph: seq<Word>, i: nat, j: nat)
    requires i / 64 < |ph| && j / 64 < |ph|
    ensures SwapPhaseBits(SwapPhaseBits(ph, i, j), i, j) == ph
  {
    var once := SwapPhaseBits(ph, i, j);
    forall k: nat | k / 64 < |ph| ensures Bit(SwapPhaseBits(once, i, j), k) == Bit(ph, k) {
      SwapPhaseBitsBits(once, i, j, k);
      SwapPhaseBitsBits(ph, i, j, i);
      SwapPhaseBitsBits(ph, i, j, j);
      SwapPhaseBitsBits(ph, i, j, k);
    }
    SliceExt(SwapPhaseBits(once, i, j), ph);
  }

  /** `tableau_idx_swap_transverse` on a state: exchange rows i and j and phase bits i and j. */
  function SwapTransverse(s: TabState, i: nat, j: nat): (r: TabState)
    requires WellFormed(s) && i < |s.xs| && j < |s.xs| && i / 64 < |s.ph| && j / 64 < |s.ph|
    ensures WellFormed(r) && |r.xs| == |s.xs| && |r.ph| == |s.ph|
  {
    TabState(SwapRows(s.xs, i, j), SwapRows(s.zs, i, j), SwapPhaseBits(s.ph, i, j))
  }

  /** Exchanging the same two rows (with their phase bits) twice restores the tableau. */
  lemma SwapTransverseInvolution(s: TabState, i: nat, j: nat)
    requires WellFormed(s) && i < |s.xs| && j < |s.xs| && i / 64 < |s.ph| && j / 64 < |s.ph|
    ensures SwapTransverse(SwapTransverse(s, i, j), i, j) == s
  {
    SwapPhaseBitsInvolution(s.ph, i, j);
  }

  /** Exchanging a row with itself changes nothing, phases included. */
  lemma SwapTransverseSame(s: TabState, i: nat)
    requires WellFormed(s) && i < |s.xs| && i / 64 < |s.ph|
    ensures SwapTransverse(s, i, i) == s
  {
    forall k: nat | k / 64 < |s.ph| ensures Bit(SwapPhaseBits(s.ph, i, i), k) == Bit(s.ph, k) {
      SwapPhaseBitsBits(s.ph, i, i, k);
    }
    SliceExt(SwapPhaseBits(s.ph, i, i), s.ph);
  }

  /** The slice `a` with its first `n` words xor-ed with those of `b`. */
  function XorWords(a: seq<Word>, b: seq<Word>, n: nat): (r: seq<Word>)
    requires n <= |a| && n <= |b|
    ensures |r| == |a|
  {
    seq(|a|, w requires 0 <= w < |a| => if w < n then Xor(a[w], b[w]) else a[w])
  }

  /** `tableau_slice_xor` on one set of rows: row t ^= row c on the first `n` words. */
  function XorRow(rows: seq<seq<Word>>, c: nat, t: nat, n: nat): (r: seq<seq<Word>>)
    requires c < |rows| && t < |rows| && n <= |rows[t]| && n <= |rows[c]|
    ensures |r| == |rows| && |r[t]| == |rows[t]|
  {
    rows[t := XorWords(rows[t], rows[c], n)]
  }

  /** Adding row c into row t twice restores row t when the rows differ. */
  lemma XorRowTwice(rows: seq<seq<Word>>, c: nat, t: nat, n: nat)
    requires c < |rows| && t < |rows| && n <= |rows[t]| && n <= |rows[c]| && c != t
    ensures XorRow(XorRow(rows, c, t, n), c, t, n) == rows
  {
    var once := XorRow(rows, c, t, n);
    var twice := XorRow(once, c, t, n);
    forall w | 0 <= w < |rows[t]| ensures twice[t][w] == rows[t][w] {
      if w < n {
        assert twice[t][w] == Xor(Xor(rows[t][w], rows[c][w]), rows[c][w]);
      }
    }
    assert twice[t] == rows[t];
  }

  /** Bit view of XorRow: the bits of row t below 64 n become the sum of both rows' bits. */
  lemma XorRowBit(rows: seq<seq<Word>>, c: nat, t: nat, n: nat, k: nat)
    requires c < |rows| && t < |rows| && n <= |rows[t]| && n <= |rows[c]| && k < 64 * n
    ensures Bit(XorRow(rows, c, t, n)[t], k) == (c != t && (Bit(rows[t], k) != Bit(rows[c], k)))
  {
  }

  /** A row of `words` zero words holds no set bit. */
  lemma ZeroRowEmpty(words: nat)
    ensures EmptyPrefix(seq(words, w => Zero()), words)
  {
    var zeroRow := seq(words, w => Zero());
    forall k: nat | k < 64 * words ensures !Bit(zeroRow, k) {
      assert !Zero()[k % 64];
    }
  }

  /** The X rows of `tableau_create`: n rows of `words` zero words. */
  method ZeroRows(n: nat, words: nat) returns (xs: array<seq<Word>>)
    ensures fresh(xs) && xs.Length == n
    ensures forall j :: 0 <= j < n ==> |xs[j]| == words && EmptyPrefix(xs[j], words)
  {
    ZeroRowEmpty(words);
    var zeroRow := seq(words, w => Zero());
    xs := new seq<Word>[n](j => zeroRow);
  }

  /** The phase slice of `tableau_create`: `words` words with no bit set. */
  method ZeroPhases(words: nat) returns (ph: array<Word>)
    ensures fresh(ph) && ph.Length == words && EmptyPrefix(ph[..], words)
  {
    ZeroRowEmpty(words);
    ph := new Word[words](w => Zero());
    assert ph[..] == seq(words, w => Zero());
  }

  /** The Z rows of `tableau_create`: bit k of row j is set exactly when k == j. */
  method IdentityRows(n: nat, words: nat) returns (zs: array<seq<Word>>)
    requires n <= 64 * words
    ensures fresh(zs) && zs.Length == n
    ensures forall j :: 0 <= j < n ==> |zs[j]| == words
    ensures forall j, k: nat :: 0 <= j < n && k < 64 * words ==> (Bit(zs[j], k) <==> k == j)
  {
    zs := ZeroRows(n, words);
    var i := 0;
    while i < n
      invariant 0 <= i <= n
      invariant forall j :: 0 <= j < n ==> |zs[j]| == words
      invariant forall j, k: nat :: 0 <= j < n && k < 64 * words ==>
        (Bit(zs[j], k) <==> j < i && k == j)
    {
      BitsOfWithBit(zs[i], i, 1);
      zs[i] := WithBit(zs[i], i, 1);
      i := i + 1;
    }
  }

  /** The loop of `tableau_transverse_hadamard`: rows 0 .. n - 1 in order, each trading its X and Z bit of column t. */
  method TransverseHInPlace(xs: array<seq<Word>>, zs: array<seq<Word>>, t: nat, n: nat, ghost ph: seq<Word>)
    requires xs != zs && WellFormed(TabState(xs[..], zs[..], ph)) && t / 64 < |ph| && n <= xs.Length
    modifies xs, zs
    ensures TabState(xs[..], zs[..], ph) == TransverseH(TabState(old(xs[..]), old(zs[..]), ph), t, n)
  {
    ghost var s0 := TabState(xs[..], zs[..], ph);
    var i := 0;
    while i < n
      invariant 0 <= i <= n && xs.Length == zs.Length
      invariant forall j :: 0 <= j < xs.Length ==>
        xs[j] == (if j < i then RowWithBitOf(s0.xs[j], t, s0.zs[j]) else s0.xs[j])
        && zs[j] == (if j < i then RowWithBitOf(s0.zs[j], t, s0.xs[j]) else s0.zs[j])
    {
      var bitZ := SliceGetBit(zs[i], t);
      var bitX := SliceGetBit(xs[i], t);
      zs[i] := WithBit(zs[i], t, bitX);
      xs[i] := WithBit(xs[i], t, bitZ);
      i := i + 1;
    }
    assert xs[..] == TransverseH(s0, t, n).xs;
    assert zs[..] == TransverseH(s0, t, n).zs;
  }

  /** The loop of `tableau_slice_xor` over one set of rows: row t ^= row c, word by word over the first `n` words. */
  method XorRowInPlace(rows: array<seq<Word>>, c: nat, t: nat, n: nat)
    requires c < rows.Length && t < rows.Length && n <= |rows[t]| && n <= |rows[c]|
    modifies rows
    ensures rows[..] == XorRow(old(rows[..]), c, t, n)
  {
    ghost var r0 := rows[..];
    var i := 0;
    while i < n
      invariant 0 <= i <= n
      invariant forall j :: 0 <= j < rows.Length && j != t ==> rows[j] == r0[j]
      invariant |rows[t]| == |r0[t]|
      invariant forall w :: 0 <= w < |r0[t]| ==>
        rows[t][w] == if w < i then Xor(r0[t][w], r0[c][w]) else r0[t][w]
    {
      rows[t] := rows[t][i := Xor(rows[t][i], rows[c][i])];
      i := i + 1;
    }
    assert rows[t] == XorRow(r0, c, t, n)[t];
    assert rows[..] == XorRow(r0, c, t, n);
  }

  class Tableau {
    var nQubits: nat
    var sliceLen: nat
    const rowWords: nat
    const slicesX: array<seq<Word>>
    const slicesZ: array<seq<Word>>
    const phases: array<Word>
    var orientation: Orientation

    /** Pointer tables of equal size, every row buffer `rowWords` long, kernels within the buffers. */
    ghost predicate Valid()
      reads this, slicesX, slicesZ
    {
      slicesX != slicesZ
      && slicesX.Length == slicesZ.Length
      && nQubits <= slicesX.Length
      && sliceLen == SliceLenSizeT(nQubits)
      && nQubits <= 64 * sliceLen
      && rowWords == RowWords(slicesX.Length)
      && sliceLen <= rowWords
      && phases.Length == rowWords
      && 64 * rowWords <= CTZ_SENTINEL
      && (forall i :: 0 <= i < slicesX.Length ==> |slicesX[i]| == rowWords)
      && (forall i :: 0 <= i < slicesZ.Length ==> |slicesZ[i]| == rowWords)
    }

    /** The content of the tableau. */
    function State(): TabState
      reads this, slicesX, slicesZ, phases
    {
      TabState(slicesX[..], slicesZ[..], phases[..])
    }

    lemma StateWellFormed()
      requires Valid()
      ensures WellFormed(State()) && |State().xs| == slicesX.Length && |State().ph| == rowWords
    {
    }

    /**
     * `tableau_create`: `n` qubits, all-zero X rows and phases, and Z rows
     * forming the identity: bit k of Z row i is set exactly when k == i.
     */
    constructor (n: nat)
      requires 64 * RowWords(n) <= CTZ_SENTINEL
      ensures Valid() && fresh(slicesX) && fresh(slicesZ) && fresh(phases)
      ensures nQubits == n && slicesX.Length == n && rowWords == RowWords(n)
      ensures sliceLen == CreateSliceLen(n) && orientation == ColMajor
      ensures forall i :: 0 <= i < n ==> EmptyPrefix(slicesX[i], rowWords)
      ensures EmptyPrefix(phases[..], rowWords)
      ensures forall i, k: nat :: 0 <= i < n && k < 64 * rowWords ==> (Bit(slicesZ[i], k) <==> k == i)
    {
      var words := RowWords(n);
      var len := CreateSliceLen(n);
      CreateSliceLenSound(n);
      assert n <= 64 * len <= 64 * words;
      var xs := ZeroRows(n, words);
      var zs := IdentityRows(n, words);
      var ph := ZeroPhases(words);
      nQubits := n;
      rowWords := words;
      sliceLen := len;
      orientation := ColMajor;
      slicesX := xs;
      slicesZ := zs;
      phases := ph;
    }

    /**
     * `tableau_set_n_qubits`: change the qubit count (never above the
     * allocated count) and recompute the slice length; no row changes.
     */
    method SetNQubits(n: nat)
      requires Valid() && n <= slicesX.Length
      modifies this
      ensures Valid() && nQubits == n && sliceLen == SliceLenSizeT(n)
      ensures orientation == old(orientation)
    {
      SliceLenFits(n, slicesX.Length);
      SliceLenBytesSound(n, 8);
      nQubits := n;
      sliceLen := SliceLenSizeT(n);
    }

    /** The naive transpose from state s0 has exchanged exactly the pairs before (i, j), in X and in Z. */
    ghost predicate TransposedUpTo(s0: TabState, i: nat, j: nat)
      reads this, slicesX, slicesZ
    {
      Valid() && |s0.xs| == |s0.zs| == slicesX.Length
      && (forall p :: 0 <= p < slicesX.Length ==> |s0.xs[p]| == rowWords && |s0.zs[p]| == rowWords)
      && SwappedUpTo(slicesX[..], s0.xs, nQubits, rowWords, i, j)
      && SwappedUpTo(slicesZ[..], s0.zs, nQubits, rowWords, i, j)
    }

    /** One step of the naive transpose: exchange bit j of row i with bit i of row j, in X and in Z. */
    method TransposeStep(i: nat, j: nat, ghost s0: TabState)
      requires i < j < nQubits && TransposedUpTo(s0, i, j)
      modifies slicesX, slicesZ
      ensures TransposedUpTo(s0, i, j + 1)
    {
      ghost var beforeX, beforeZ := slicesX[..], slicesZ[..];
      BitInSliceLen(nQubits, i);
      BitInSliceLen(nQubits, j);
      SwapBitPair(slicesX, i, j);
      SwapBitPair(slicesZ, i, j);
      SwapBitsStep(beforeX, s0.xs, nQubits, rowWords, i, j);
      SwapBitsStep(beforeZ, s0.zs, nQubits, rowWords, i, j);
    }

    /** The inner loop of the naive transpose for row i: exchange the pairs (i, j), i < j < nQubits. */
    method TransposeRowNaive(i: nat, ghost s0: TabState)
      requires i < nQubits && TransposedUpTo(s0, i, i + 1)
      modifies slicesX, slicesZ
      ensures TransposedUpTo(s0, i + 1, i + 2)
    {
      var j := i + 1;
      while j < nQubits
        invariant i + 1 <= j <= nQubits && TransposedUpTo(s0, i, j)
      {
        TransposeStep(i, j, s0);
        j := j + 1;
      }
      SwappedNextRow(slicesX[..], s0.xs, nQubits, rowWords, i);
      SwappedNextRow(slicesZ[..], s0.zs, nQubits, rowWords, i);
    }

    /**
     * `tableau_transpose_naive`: for every pair i < j below nQubits, exchange
     * bit j of row i with bit i of row j, in the X rows and in the Z rows.
     * The orientation flag is left as it is.
     */
    method TransposeNaive()
      requires Valid()
      modifies slicesX, slicesZ
      ensures Valid()
      ensures State() == TabState(Transposed(old(State()).xs, nQubits, rowWords),
        Transposed(old(State()).zs, nQubits, rowWords), old(State()).ph)
    {
      ghost var s0 := State();
      var i := 0;
      while i < nQubits
        invariant 0 <= i <= nQubits && TransposedUpTo(s0, i, i + 1)
      {
        TransposeRowNaive(i, s0);
        i := i + 1;
      }
      TransposedAll(s0);
    }

    /** Once every pair is exchanged, both sets of rows are the transposes of the starting ones. */
    lemma TransposedAll(s0: TabState)
      requires TransposedUpTo(s0, nQubits, nQubits + 1)
      ensures slicesX[..] == Transposed(s0.xs, nQubits, rowWords)
      ensures slicesZ[..] == Transposed(s0.zs, nQubits, rowWords)
    {
      SwappedAllIsTransposed(slicesX[..], s0.xs, nQubits, rowWords);
      SwappedAllIsTransposed(slicesZ[..], s0.zs, nQubits, rowWords);
    }

    /**
     * `tableau_transpose`.  Below 64 qubits it is the naive transpose; the
     * blocked 64-by-64 transpose used from 64 qubits on is modelled by the
     * naive transpose it is meant to agree with.
     */
    method Transpose()
      requires Valid()
      modifies slicesX, slicesZ
      ensures Valid()
      ensures State() == TabState(Transposed(old(State()).xs, nQubits, rowWords),
        Transposed(old(State()).zs, nQubits, rowWords), old(State()).ph)
    {
      TransposeNaive();
    }

    /** `tableau_slice_empty_x`: whether X row `idx` has no set bit in its first `sliceLen` words. */
    method SliceEmptyX(idx: nat) returns (empty: bool)
      requires Valid() && idx < slicesX.Length
      ensures empty <==> EmptyPrefix(slicesX[idx], sliceLen)
    {
      empty := SliceEmpty(slicesX[idx], sliceLen);
    }

    /** `tableau_slice_empty_z`: whether Z row `idx` has no set bit in its first `sliceLen` words. */
    method SliceEmptyZ(idx: nat) returns (empty: bool)
      requires Valid() && idx < slicesZ.Length
      ensures empty <==> EmptyPrefix(slicesZ[idx], sliceLen)
    {
      empty := SliceEmpty(slicesZ[idx], sliceLen);
    }

    /** `tableau_transverse_hadamard`: exchange the X and Z bit of column `targ` in every row. */
    method TransverseHadamard(targ: nat)
      requires Valid() && targ < nQubits
      modifies slicesX, slicesZ
      ensures Valid()
      ensures State() == TransverseH(old(State()), targ, nQubits)
    {
      BitInSliceLen(nQubits, targ);
      TransverseHInPlace(slicesX, slicesZ, targ, nQubits, phases[..]);
    }

    /** `tableau_idx_swap`: exchange rows i and j of both the X and the Z pointer tables. */
    method IdxSwap(i: nat, j: nat)
      requires Valid() && i < slicesX.Length && j < slicesX.Length
      modifies slicesX, slicesZ
      ensures Valid()
      ensures State() == TabState(SwapRows(old(State()).xs, i, j), SwapRows(old(State()).zs, i, j), old(State()).ph)
    {
      slicesX[i], slicesX[j] := slicesX[j], slicesX[i];
      slicesZ[i], slicesZ[j] := slicesZ[j], slicesZ[i];
    }

    /** `tableau_idx_swap_transverse`: exchange rows i and j and phase bits i and j. */
    method IdxSwapTransverse(i: nat, j: nat)
      requires Valid() && i < nQubits && j < nQubits
      modifies slicesX, slicesZ, phases
      ensures Valid()
      ensures State() == SwapTransverse(old(State()), i, j)
    {
      BitInSliceLen(nQubits, i);
      BitInSliceLen(nQubits, j);
      IdxSwap(i, j);
      var phaseI := SliceGetBit(phases[..], i);
      var phaseJ := SliceGetBit(phases[..], j);
      SliceSetBit(phases, i, phaseJ);
      SliceSetBit(phases, j, phaseI);
    }

    /**
     * `tableau_slice_xor`: X row `targ` ^= X row `ctrl`, then Z row `targ` ^=
     * Z row `ctrl`, over the first `sliceLen` words.
     */
    method SliceXor(ctrl: nat, targ: nat)
      requires Valid() && ctrl < slicesX.Length && targ < slicesX.Length
      modifies slicesX, slicesZ
      ensures Valid()
      ensures State() == TabState(XorRow(old(State()).xs, ctrl, targ, sliceLen),
        XorRow(old(State()).zs, ctrl, targ, sliceLen), old(State()).ph)
    {
      XorRowInPlace(slicesX, ctrl, targ, sliceLen);
      XorRowInPlace(slicesZ, ctrl, targ, sliceLen);
    }
  }
}
