/**
 * Pivot search and column elimination on the X block
 * (c_lib/src/simd/simd_tableau_operations.c).
 *
 * These routines run on the transposed (row-major) tableau: the X slice of
 * row j holds stabiliser j's X part, bit q for qubit q, so X[j][q] is
 * Bit(xs[j], q).
 */
module Elimination {
  import opened Bits
  import opened Cliffords
  import opened Tableaux
  import opened Kernels
  import opened CliffordQueues

  datatype Option<T> = None | Some(value: T)

  /** The first `n` rows and their first `n` bits lie inside the tableau. */
  predicate Fits(s: TabState, n: nat)
  {
    WellFormed(s) && n <= |s.xs| && n <= 64 * |s.ph|
  }

  lemma FitsBit(s: TabState, n: nat, k: nat)
    requires Fits(s, n) && k < n
    ensures k / 64 < |s.ph|
  {
  }

  /** The first row j with from <= j < n whose slice has bit `col` set. */
  function FirstRowWith(rows: seq<seq<Word>>, col: nat, from: nat, n: nat): (r: Option<nat>)
    requires n <= |rows| && forall j :: 0 <= j < |rows| ==> col / 64 < |rows[j]|
    ensures r.Some? ==> from <= r.value < n && Bit(rows[r.value], col)
    ensures r.Some? ==> forall j :: from <= j < r.value ==> !Bit(rows[j], col)
    ensures r.None? ==> forall j :: from <= j < n ==> !Bit(rows[j], col)
    decreases n - from
  {
    if from >= n then None
    else if Bit(rows[from], col) then Some(from)
    else FirstRowWith(rows, col, from + 1, n)
  }

  /** The outcome of the pivot search: the new state and whether H was queued on the pivot qubit. */
  datatype DiagResult = DiagResult(s: TabState, queuedH: bool)

  /**
   * `tableau_X_diag_element(idx)`: strategy 1 swaps in the first later row
   * with X[j][idx] set; strategy 2 applies a transverse Hadamard on column idx
   * when Z[idx][idx] is set; strategy 3 swaps in the first later row with
   * Z[j][idx] set and then applies the transverse Hadamard; otherwise nothing
   * changes.  Strategies 2 and 3 queue H on qubit idx.
   */
  function DiagElementSpec(s: TabState, idx: nat, n: nat): (d: DiagResult)
    requires Fits(s, n) && idx < n
    ensures Fits(d.s, n) && |d.s.xs| == |s.xs| && |d.s.ph| == |s.ph|
  {
    match FirstRowWith(s.xs, idx, idx + 1, n)
    case Some(j) => DiagResult(SwapTransverse(s, idx, j), false)
    case None =>
      if Bit(s.zs[idx], idx) then DiagResult(TransverseH(s, idx, n), true)
      else match FirstRowWith(s.zs, idx, idx + 1, n)
        case Some(j) => DiagResult(TransverseH(SwapTransverse(s, idx, j), idx, n), true)
        case None => DiagResult(s, false)
  }

  /** When strategies 1 and 2 do not apply and row j is the first later row with Z[j][idx] set, strategy 3 swaps it in and applies the transverse Hadamard. */
  lemma DiagElementThirdStrategy(s: TabState, idx: nat, n: nat, j: nat)
    requires Fits(s, n) && idx < n && idx / 64 < |s.ph|
    requires FirstRowWith(s.xs, idx, idx + 1, n).None? && !Bit(s.zs[idx], idx)
    requires FirstRowWith(s.zs, idx, idx + 1, n) == Some(j)
    ensures DiagElementSpec(s, idx, n) == DiagResult(TransverseH(SwapTransverse(s, idx, j), idx, n), true)
  {
  }

  /** Some row from idx on has an X or a Z on qubit idx. */
  ghost predicate HasPivot(s: TabState, idx: nat, n: nat)
    requires Fits(s, n) && idx < n
  {
    exists j :: idx <= j < n && (Bit(s.xs[j], idx) || Bit(s.zs[j], idx))
  }

  /**
   * After the pivot search, X[idx][idx] is set exactly when some row from
   * idx on has an X or a Z on qubit idx; when it is not set, nothing changed.
   */
  lemma DiagElementPivot(s: TabState, idx: nat, n: nat)
    requires Fits(s, n) && idx < n
    ensures var r := DiagElementSpec(s, idx, n).s;
      (Bit(r.xs[idx], idx) <==> HasPivot(s, idx, n)) && (!Bit(r.xs[idx], idx) ==> r == s)
  {
    FitsBit(s, n, idx);
    var r := DiagElementSpec(s, idx, n).s;
    match FirstRowWith(s.xs, idx, idx + 1, n)
    case Some(j) =>
      assert r.xs[idx] == s.xs[j];
    case None =>
      if Bit(s.zs[idx], idx) {
        TransverseHBits(s, idx, n, idx, idx);
      } else {
        match FirstRowWith(s.zs, idx, idx + 1, n)
        case Some(j) =>
          var w := SwapTransverse(s, idx, j);
          assert w.zs[idx] == s.zs[j];
          TransverseHBits(w, idx, n, idx, idx);
        case None =>
          if HasPivot(s, idx, n) {
            var j :| idx <= j < n && (Bit(s.xs[j], idx) || Bit(s.zs[j], idx));
            assert j == idx;
          }
      }
  }

  /**
   * Every diagonal entry X[k][k] below i is set, or qubit k has neither an X
   * nor a Z in any row from k on.
   */
  ghost predicate DiagonalUpTo(s: TabState, n: nat, i: nat)
    requires Fits(s, n) && i <= n
  {
    forall k :: 0 <= k < i ==>
      Bit(s.xs[k], k) || forall j :: k <= j < n ==> !Bit(s.xs[j], k) && !Bit(s.zs[j], k)
  }

  /** Exchanging two rows at or after i keeps the diagonal below i. */
  lemma SwapKeepsDiagonal(s: TabState, n: nat, i: nat, a: nat, b: nat)
    requires Fits(s, n) && i <= a < n && i <= b < n && DiagonalUpTo(s, n, i)
    ensures DiagonalUpTo(SwapTransverse(s, a, b), n, i)
  {
    FitsBit(s, n, a);
    FitsBit(s, n, b);
    var r := SwapTransverse(s, a, b);
    forall k | 0 <= k < i
      ensures Bit(r.xs[k], k) || forall j :: k <= j < n ==> !Bit(r.xs[j], k) && !Bit(r.zs[j], k)
    {
      assert r.xs[k] == s.xs[k];
      if !Bit(s.xs[k], k) {
        forall j | k <= j < n ensures !Bit(r.xs[j], k) && !Bit(r.zs[j], k) {
          var j' := if j == a then b else if j == b then a else j;
          assert r.xs[j] == s.xs[j'] && r.zs[j] == s.zs[j'];
        }
      }
    }
  }

  /** A transverse Hadamard on a column at or after i keeps the diagonal below i. */
  lemma TransverseHKeepsDiagonal(s: TabState, n: nat, i: nat, t: nat)
    requires Fits(s, n) && i <= t < n && DiagonalUpTo(s, n, i)
    ensures DiagonalUpTo(TransverseH(s, t, n), n, i)
  {
    FitsBit(s, n, t);
    var r := TransverseH(s, t, n);
    forall k | 0 <= k < i
      ensures Bit(r.xs[k], k) || forall j :: k <= j < n ==> !Bit(r.xs[j], k) && !Bit(r.zs[j], k)
    {
      FitsBit(s, n, k);
      TransverseHBits(s, t, n, k, k);
      if !Bit(s.xs[k], k) {
        forall j | k <= j < n ensures !Bit(r.xs[j], k) && !Bit(r.zs[j], k) {
          TransverseHBits(s, t, n, j, k);
        }
      }
    }
  }

  /** The pivot search on qubit idx >= i keeps the diagonal below i. */
  lemma DiagElementKeepsDiagonal(s: TabState, idx: nat, n: nat, i: nat)
    requires Fits(s, n) && i <= idx < n && DiagonalUpTo(s, n, i)
    ensures DiagonalUpTo(DiagElementSpec(s, idx, n).s, n, i)
  {
    match FirstRowWith(s.xs, idx, idx + 1, n)
    case Some(j) =>
      SwapKeepsDiagonal(s, n, i, idx, j);
    case None =>
      if Bit(s.zs[idx], idx) {
        TransverseHKeepsDiagonal(s, n, i, idx);
      } else {
        match FirstRowWith(s.zs, idx, idx + 1, n)
        case Some(j) =>
          SwapKeepsDiagonal(s, n, i, idx, j);
          TransverseHKeepsDiagonal(SwapTransverse(s, idx, j), n, i, idx);
        case None =>
      }
  }

  /** The pivot search on qubit i extends the diagonal from below i to below i + 1. */
  lemma DiagElementExtendsDiagonal(s: TabState, n: nat, i: nat)
    requires Fits(s, n) && i < n && DiagonalUpTo(s, n, i)
    ensures DiagonalUpTo(DiagElementSpec(s, i, n).s, n, i + 1)
  {
    var r := DiagElementSpec(s, i, n).s;
    DiagElementKeepsDiagonal(s, i, n, i);
    DiagElementPivot(s, i, n);
    if !Bit(r.xs[i], i) {
      assert !HasPivot(s, i, n);
      assert r == s;
    }
  }

  /**
   * The tableau rows rewritten by the column elimination on qubit idx: each
   * row j in [lo, hi), other than idx, whose X[j][idx] is set gets row idx
   * xor-ed into its X and Z slices over the first L words.
   */
  function Eliminated(s: TabState, idx: nat, lo: nat, hi: nat, L: nat): (r: TabState)
    requires WellFormed(s) && idx < |s.xs| && idx / 64 < |s.ph| && hi <= |s.xs| && L <= |s.ph|
    ensures WellFormed(r) && |r.xs| == |s.xs| && r.ph == s.ph
  {
    TabState(
      seq(|s.xs|, j requires 0 <= j < |s.xs| =>
        if lo <= j < hi && j != idx && Bit(s.xs[j], idx) then XorWords(s.xs[j], s.xs[idx], L) else s.xs[j]),
      seq(|s.zs|, j requires 0 <= j < |s.zs| =>
        if lo <= j < hi && j != idx && Bit(s.xs[j], idx) then XorWords(s.zs[j], s.zs[idx], L) else s.zs[j]),
      s.ph)
  }

  /**
   * With X[idx][idx] set and bit idx among the L words, the elimination
   * clears X[j][idx] in every row of [lo, hi) but idx, and keeps row idx and
   * the phases.
   */
  lemma EliminationClearsColumn(s: TabState, idx: nat, lo: nat, hi: nat, L: nat)
    requires WellFormed(s) && idx < |s.xs| && hi <= |s.xs| && L <= |s.ph| && idx < 64 * L
    requires Bit(s.xs[idx], idx)
    ensures var r := Eliminated(s, idx, lo, hi, L);
      (forall j :: lo <= j < hi && j != idx ==> !Bit(r.xs[j], idx))
      && r.xs[idx] == s.xs[idx] && r.zs[idx] == s.zs[idx] && r.ph == s.ph
  {
    var r := Eliminated(s, idx, lo, hi, L);
    forall j | lo <= j < hi && j != idx ensures !Bit(r.xs[j], idx) {
      if Bit(s.xs[j], idx) {
        XorWordsBit(s.xs[j], s.xs[idx], L, idx);
      }
    }
  }

  /** Eliminating in no row changes nothing. */
  lemma EliminatedNone(s: TabState, idx: nat, lo: nat, L: nat)
    requires WellFormed(s) && idx < |s.xs| && idx / 64 < |s.ph| && lo <= |s.xs| && L <= |s.ph|
    ensures Eliminated(s, idx, lo, lo, L) == s
  {
    assert Eliminated(s, idx, lo, lo, L).xs == s.xs;
    assert Eliminated(s, idx, lo, lo, L).zs == s.zs;
  }

  /** Extending the range by row j is `tableau_slice_xor(idx, j)` when X[j][idx] is set, and nothing otherwise. */
  lemma EliminatedStep(s: TabState, idx: nat, lo: nat, j: nat, L: nat)
    requires WellFormed(s) && idx < |s.xs| && idx / 64 < |s.ph| && lo <= j < |s.xs| && j != idx && L <= |s.ph|
    ensures var p := Eliminated(s, idx, lo, j, L);
      Eliminated(s, idx, lo, j + 1, L) ==
        if Bit(p.xs[j], idx) then TabState(XorRow(p.xs, idx, j, L), XorRow(p.zs, idx, j, L), p.ph) else p
  {
    var p, q := Eliminated(s, idx, lo, j, L), Eliminated(s, idx, lo, j + 1, L);
    assert p.xs[j] == s.xs[j] && p.zs[j] == s.zs[j] && p.xs[idx] == s.xs[idx] && p.zs[idx] == s.zs[idx];
    if Bit(p.xs[j], idx) {
      assert q.xs == XorRow(p.xs, idx, j, L);
      assert q.zs == XorRow(p.zs, idx, j, L);
    } else {
      assert q.xs == p.xs;
      assert q.zs == p.zs;
    }
  }

  /** One row of the column elimination: xor row idx into row j when X[j][idx] is set. */
  method EliminateRow(tab: Tableau, idx: nat, lo: nat, j: nat, ghost s0: TabState)
    requires tab.Valid() && idx < tab.nQubits && lo <= j < tab.slicesX.Length && j != idx
    requires WellFormed(s0) && |s0.xs| == tab.slicesX.Length && |s0.ph| == tab.rowWords
    requires tab.State() == Eliminated(s0, idx, lo, j, tab.sliceLen)
    modifies tab.slicesX, tab.slicesZ
    ensures tab.Valid() && tab.State() == Eliminated(s0, idx, lo, j + 1, tab.sliceLen)
  {
    BitInSliceLen(tab.nQubits, idx);
    EliminatedStep(s0, idx, lo, j, tab.sliceLen);
    var bit := SliceGetBit(tab.slicesX[j], idx);
    if bit == 1 {
      tab.SliceXor(idx, j);
    }
  }

  /** The loop shared by both column eliminations: rows lo .. hi - 1, which exclude idx, in order. */
  method EliminateRange(tab: Tableau, idx: nat, lo: nat, hi: nat)
    requires tab.Valid() && idx < tab.nQubits && lo <= hi <= tab.slicesX.Length && !(lo <= idx < hi)
    modifies tab.slicesX, tab.slicesZ
    ensures tab.Valid()
    ensures tab.State() == Eliminated(old(tab.State()), idx, lo, hi, tab.sliceLen)
  {
    ghost var s0 := tab.State();
    tab.StateWellFormed();
    var L := tab.sliceLen;
    BitInSliceLen(tab.nQubits, idx);
    EliminatedNone(s0, idx, lo, L);
    var j := lo;
    while j < hi
      invariant lo <= j <= hi && tab.Valid()
      invariant tab.State() == Eliminated(s0, idx, lo, j, L)
    {
      EliminateRow(tab, idx, lo, j, s0);
      j := j + 1;
    }
  }

  /**
   * `tableau_X_diag_col_upper(idx)`: every row j above idx (idx < j <
   * nQubits) with X[j][idx] set gets row idx xor-ed in.
   */
  method ColUpper(tab: Tableau, idx: nat)
    requires tab.Valid() && idx < tab.nQubits
    modifies tab.slicesX, tab.slicesZ
    ensures tab.Valid()
    ensures tab.State() == Eliminated(old(tab.State()), idx, idx + 1, tab.nQubits, tab.sliceLen)
    ensures Bit(old(tab.slicesX[idx]), idx) ==> forall j :: idx < j < tab.nQubits ==> !Bit(tab.slicesX[j], idx)
  {
    ghost var s0 := tab.State();
    tab.StateWellFormed();
    BitInSliceLen(tab.nQubits, idx);
    EliminateRange(tab, idx, idx + 1, tab.nQubits);
    if Bit(s0.xs[idx], idx) {
      EliminationClearsColumn(s0, idx, idx + 1, tab.nQubits, tab.sliceLen);
    }
  }

  /**
   * `tableau_X_diag_col_lower(idx)`: every row j below idx with X[j][idx]
   * set gets row idx xor-ed in.
   */
  method ColLower(tab: Tableau, idx: nat)
    requires tab.Valid() && idx < tab.nQubits
    modifies tab.slicesX, tab.slicesZ
    ensures tab.Valid()
    ensures tab.State() == Eliminated(old(tab.State()), idx, 0, idx, tab.sliceLen)
    ensures Bit(old(tab.slicesX[idx]), idx) ==> forall j :: 0 <= j < idx ==> !Bit(tab.slicesX[j], idx)
  {
    ghost var s0 := tab.State();
    tab.StateWellFormed();
    BitInSliceLen(tab.nQubits, idx);
    EliminateRange(tab, idx, 0, idx);
    if Bit(s0.xs[idx], idx) {
      EliminationClearsColumn(s0, idx, 0, idx, tab.sliceLen);
    }
  }

  /** A valid tableau's first nQubits rows and bits lie inside it. */
  lemma ValidFits(tab: Tableau)
    requires tab.Valid()
    ensures Fits(tab.State(), tab.nQubits) && 64 * tab.sliceLen <= CTZ_SENTINEL
  {
    tab.StateWellFormed();
    MulLe(64, tab.sliceLen, tab.rowWords);
  }

  /**
   * The scan loops of `tableau_X_diag_element`: the first row j with
   * from <= j < n whose slice has bit `col` set.
   */
  method FindRowWith(rows: array<seq<Word>>, col: nat, from: nat, n: nat) returns (r: Option<nat>)
    requires n <= rows.Length && forall j :: 0 <= j < rows.Length ==> col / 64 < |rows[j]|
    ensures r == FirstRowWith(rows[..], col, from, n)
  {
    var j := from;
    while j < n
      invariant from <= j
      invariant forall k :: from <= k < j && k < n ==> !Bit(rows[k], col)
    {
      var bit := SliceGetBit(rows[j], col);
      if bit == 1 {
        assert FirstRowWith(rows[..], col, from, n) == Some(j);
        return Some(j);
      }
      j := j + 1;
    }
    assert FirstRowWith(rows[..], col, from, n).None?;
    return None;
  }

  /**
   * `tableau_X_diag_element(idx)` on a row-major tableau: the three pivot
   * strategies in order, each ending the search, with H queued on qubit idx
   * by the strategies that apply the transverse Hadamard.
   */
  method DiagElement(tab: Tableau, queue: CliffordQueue, idx: nat)
    requires tab.Valid() && idx < tab.nQubits && idx < queue.table.Length
    modifies tab.slicesX, tab.slicesZ, tab.phases, queue.table
    ensures tab.Valid()
    ensures var d := DiagElementSpec(old(tab.State()), idx, tab.nQubits);
      tab.State() == d.s
      && queue.table[..] == if d.queuedH then old(queue.table[..])[idx := queue.right(H, old(queue.table[idx]))]
        else old(queue.table[..])
  {
    ghost var s0 := tab.State();
    var n := tab.nQubits;
    ValidFits(tab);
    BitInSliceLen(n, idx);
    var found := FindRowWith(tab.slicesX, idx, idx + 1, n);
    if found.Some? {
      tab.IdxSwapTransverse(idx, found.value);
    } else {
      DiagElementByZ(tab, queue, idx, s0, n, queue.table[..]);
    }
  }

  /**
   * The queue after the pivot search from `before`: H composed into the
   * entry of qubit idx when the search queued it.
   */
  ghost predicate QueuedIf(queue: CliffordQueue, before: seq<Clifford>, idx: nat, queuedH: bool)
    reads queue, queue.table
    requires idx < |before|
  {
    queue.table[..] == if queuedH then before[idx := queue.right(H, before[idx])] else before
  }

  /**
   * Strategies 2 and 3 of `tableau_X_diag_element(idx)` on state s0 with n
   * qubits, reached when no later row has X[j][idx] set.
   */
  method DiagElementByZ(tab: Tableau, queue: CliffordQueue, idx: nat, ghost s0: TabState, ghost n: nat, ghost before: seq<Clifford>)
    requires tab.Valid() && tab.State() == s0 && tab.nQubits == n && idx < n && idx < queue.table.Length
    requires queue.table[..] == before
    requires Fits(s0, n) && FirstRowWith(s0.xs, idx, idx + 1, n).None?
    modifies tab.slicesX, tab.slicesZ, tab.phases, queue.table
    ensures tab.Valid() && tab.State() == DiagElementSpec(s0, idx, n).s
    ensures QueuedIf(queue, before, idx, DiagElementSpec(s0, idx, n).queuedH)
  {
    BitInSliceLen(n, idx);
    var diag := SliceGetBit(tab.slicesZ[idx], idx);
    if diag == 1 {
      assert DiagElementSpec(s0, idx, n) == DiagResult(TransverseH(s0, idx, n), true);
      tab.TransverseHadamard(idx);
      queue.LocalCliffordRight(H, idx);
    } else {
      DiagElementSwapZ(tab, queue, idx, s0, n, before);
    }
  }

  /**
   * Strategy 3 of `tableau_X_diag_element(idx)` on state s0 with n qubits,
   * reached when no later row has X[j][idx] set and Z[idx][idx] is clear.
   */
  method DiagElementSwapZ(tab: Tableau, queue: CliffordQueue, idx: nat, ghost s0: TabState, ghost n: nat, ghost before: seq<Clifford>)
    requires tab.Valid() && tab.State() == s0 && tab.nQubits == n && idx < n && idx < queue.table.Length
    requires queue.table[..] == before
    requires Fits(s0, n) && idx / 64 < |s0.ph| && FirstRowWith(s0.xs, idx, idx + 1, n).None? && !Bit(s0.zs[idx], idx)
    modifies tab.slicesX, tab.slicesZ, tab.phases, queue.table
    ensures tab.Valid() && tab.State() == DiagElementSpec(s0, idx, n).s
    ensures QueuedIf(queue, before, idx, DiagElementSpec(s0, idx, n).queuedH)
  {
    BitInSliceLen(n, idx);
    var found := FindRowWith(tab.slicesZ, idx, idx + 1, tab.nQubits);
    if found.None? {
      assert DiagElementSpec(s0, idx, n) == DiagResult(s0, false);
    } else {
      DiagElementThirdStrategy(s0, idx, n, found.value);
      SwapInAndFlip(tab, queue, idx, found.value);
    }
  }

  /** The body of strategy 3: swap row j into row idx, apply the transverse Hadamard on column idx and queue H on qubit idx. */
  method SwapInAndFlip(tab: Tableau, queue: CliffordQueue, idx: nat, j: nat)
    requires tab.Valid() && idx < tab.nQubits && j < tab.nQubits && idx < queue.table.Length
    modifies tab.slicesX, tab.slicesZ, tab.phases, queue.table
    ensures tab.Valid() && tab.nQubits == old(tab.nQubits)
    ensures tab.State() == TransverseH(SwapTransverse(old(tab.State()), idx, j), idx, tab.nQubits)
    ensures queue.table[..] == old(queue.table[..])[idx := queue.right(H, old(queue.table[idx]))]
  {
    ValidFits(tab);
    BitInSliceLen(tab.nQubits, idx);
    BitInSliceLen(tab.nQubits, j);
    tab.IdxSwapTransverse(idx, j);
    tab.TransverseHadamard(idx);
    queue.LocalCliffordRight(H, idx);
  }

  /** The state after a pass of the diagonalisation loop over the first i qubits, and the qubits it queued H on. */
  datatype DiagRun = DiagRun(s: TabState, flipped: set<nat>)

  /** The transpose `tableau_transpose` performs, on a state. */
  function TransposedState(s: TabState, n: nat): (r: TabState)
    requires Fits(s, n)
    ensures Fits(r, n) && |r.xs| == |s.xs| && r.ph == s.ph
  {
    TabState(Transposed(s.xs, n, |s.ph|), Transposed(s.zs, n, |s.ph|), s.ph)
  }

  /**
   * The loop of `tableau_X_diagonal` over qubits 0 .. i - 1: each qubit whose
   * diagonal X entry is clear gets the pivot search.
   */
  function Diagonalised(s: TabState, n: nat, i: nat): (d: DiagRun)
    requires Fits(s, n) && i <= n
    ensures Fits(d.s, n) && |d.s.xs| == |s.xs| && |d.s.ph| == |s.ph|
    ensures forall q :: q in d.flipped ==> q < i
  {
    if i == 0 then DiagRun(s, {})
    else
      var p := Diagonalised(s, n, i - 1);
      FitsBit(p.s, n, i - 1);
      if Bit(p.s.xs[i - 1], i - 1) then p
      else
        var e := DiagElementSpec(p.s, i - 1, n);
        DiagRun(e.s, if e.queuedH then p.flipped + {i - 1} else p.flipped)
  }

  /**
   * The diagonalisation invariant: after the loop has passed qubit i, every
   * qubit k below i has X[k][k] set, unless no row from k on has an X or a Z
   * on qubit k.
   */
  lemma {:induction false} DiagonalisedReady(s: TabState, n: nat, i: nat)
    requires Fits(s, n) && i <= n
    ensures DiagonalUpTo(Diagonalised(s, n, i).s, n, i)
  {
    if i > 0 {
      DiagonalisedReady(s, n, i - 1);
      var p := Diagonalised(s, n, i - 1).s;
      FitsBit(p, n, i - 1);
      if Bit(p.xs[i - 1], i - 1) {
        assert Diagonalised(s, n, i).s == p;
      } else {
        DiagElementExtendsDiagonal(p, n, i - 1);
        assert Diagonalised(s, n, i).s == DiagElementSpec(p, i - 1, n).s;
      }
    }
  }

  /** The queue after the diagonalisation loop: H composed into the entry of every flipped qubit. */
  ghost predicate QueuedOn(queue: CliffordQueue, before: seq<Clifford>, flipped: set<nat>)
    reads queue, queue.table
  {
    |before| == queue.table.Length
    && forall q :: 0 <= q < queue.table.Length ==>
      queue.table[q] == if q in flipped then queue.right(H, before[q]) else before[q]
  }

  /** One pass of the loop of `tableau_X_diagonal`: the pivot search on qubit i when X[i][i] is clear. */
  method XDiagonalStep(tab: Tableau, queue: CliffordQueue, i: nat, ghost t0: TabState, ghost before: seq<Clifford>)
    requires tab.Valid() && tab.nQubits <= queue.table.Length && i < tab.nQubits
    requires Fits(t0, tab.nQubits) && tab.State() == Diagonalised(t0, tab.nQubits, i).s
    requires QueuedOn(queue, before, Diagonalised(t0, tab.nQubits, i).flipped)
    modifies tab.slicesX, tab.slicesZ, tab.phases, queue.table
    ensures tab.Valid() && tab.State() == Diagonalised(t0, tab.nQubits, i + 1).s
    ensures QueuedOn(queue, before, Diagonalised(t0, tab.nQubits, i + 1).flipped)
  {
    BitInSliceLen(tab.nQubits, i);
    var bit := SliceGetBit(tab.slicesX[i], i);
    if bit == 0 {
      DiagElement(tab, queue, i);
    }
  }

  /**
   * `tableau_X_diagonal`: transpose the tableau, then give every qubit whose
   * diagonal X entry is clear the pivot search.
   */
  method XDiagonal(tab: Tableau, queue: CliffordQueue)
    requires tab.Valid() && tab.nQubits <= queue.table.Length
    modifies tab.slicesX, tab.slicesZ, tab.phases, queue.table
    ensures tab.Valid()
    ensures var d := Diagonalised(TransposedState(old(tab.State()), tab.nQubits), tab.nQubits, tab.nQubits);
      tab.State() == d.s && QueuedOn(queue, old(queue.table[..]), d.flipped)
    ensures DiagonalUpTo(tab.State(), tab.nQubits, tab.nQubits)
  {
    ValidFits(tab);
    ghost var t0 := TransposedState(tab.State(), tab.nQubits);
    ghost var before := queue.table[..];
    tab.Transpose();
    XDiagonalLoop(tab, queue, t0, before);
    DiagonalisedReady(t0, tab.nQubits, tab.nQubits);
  }

  /** The loop of `tableau_X_diagonal` over every qubit, on the transposed tableau t0. */
  method XDiagonalLoop(tab: Tableau, queue: CliffordQueue, ghost t0: TabState, ghost before: seq<Clifford>)
    requires tab.Valid() && tab.nQubits <= queue.table.Length
    requires Fits(t0, tab.nQubits) && tab.State() == t0 && queue.table[..] == before
    modifies tab.slicesX, tab.slicesZ, tab.phases, queue.table
    ensures tab.Valid()
    ensures var d := Diagonalised(t0, tab.nQubits, tab.nQubits);
      tab.State() == d.s && QueuedOn(queue, before, d.flipped)
  {
    var i, n := 0, tab.nQubits;
    while i < n
      invariant 0 <= i <= n && tab.Valid() && tab.nQubits == n
      invariant tab.State() == Diagonalised(t0, n, i).s
      invariant QueuedOn(queue, before, Diagonalised(t0, n, i).flipped)
    {
      XDiagonalStep(tab, queue, i, t0, before);
      i := i + 1;
    }
  }

  /** A Hadamard on a qubit whose X slice is empty on the processed words exchanges its two slices and keeps the phases. */
  lemma LocalHOnEmptyX(t: nat, n: nat, s: TabState)
    requires HasColumn(s, t) && n <= |s.ph| && EmptyPrefix(s.xs[t], n)
    ensures Local(H, t, n, s) == TabState(s.xs[t := s.zs[t]], s.zs[t := s.xs[t]], s.ph)
  {
    var c := ColumnOf(s, t);
    var u := UpdateColumn(H, c, n);
    forall w | 0 <= w < |s.ph| ensures u.x[w] == c.x[w] && u.z[w] == c.z[w] && u.r[w] == c.r[w] {
      if w < n {
        forall b | 0 <= b < 64 ensures !c.x[w][b] {
          var k: nat := 64 * w + b;
          assert k / 64 == w && k % 64 == b;
          assert !Bit(s.xs[t], k);
        }
      }
    }
    assert u.x == c.x && u.z == c.z && u.r == c.r;
  }

  /**
   * `tableau_remove_zero_X_columns` over qubits 0 .. i - 1, on a column-major
   * state: each qubit whose X slice is empty on the first L words gets a
   * Hadamard, which exchanges its X and Z slices.
   */
  function ZeroXColumnsRemoved(s: TabState, i: nat, L: nat): (r: TabState)
    requires WellFormed(s) && i <= |s.xs| && L <= |s.ph|
    ensures WellFormed(r) && |r.xs| == |s.xs| && r.ph == s.ph
    ensures forall k :: 0 <= k < i && EmptyPrefix(r.xs[k], L) ==> EmptyPrefix(s.xs[k], L) && EmptyPrefix(s.zs[k], L)
    ensures forall k :: 0 <= k < |s.xs| && !(k < i && EmptyPrefix(s.xs[k], L)) ==> r.xs[k] == s.xs[k] && r.zs[k] == s.zs[k]
  {
    TabState(
      seq(|s.xs|, k requires 0 <= k < |s.xs| => if k < i && EmptyPrefix(s.xs[k], L) then s.zs[k] else s.xs[k]),
      seq(|s.zs|, k requires 0 <= k < |s.zs| => if k < i && EmptyPrefix(s.xs[k], L) then s.xs[k] else s.zs[k]),
      s.ph)
  }

  /** One more qubit of the removal loop is a Hadamard on it exactly when its X slice is empty. */
  lemma ZeroXColumnsStep(s: TabState, i: nat, L: nat)
    requires WellFormed(s) && i < |s.xs| && L <= |s.ph|
    ensures var p := ZeroXColumnsRemoved(s, i, L);
      p.xs[i] == s.xs[i]
      && ZeroXColumnsRemoved(s, i + 1, L) == if EmptyPrefix(s.xs[i], L) then Local(H, i, L, p) else p
  {
    var p, q := ZeroXColumnsRemoved(s, i, L), ZeroXColumnsRemoved(s, i + 1, L);
    if EmptyPrefix(s.xs[i], L) {
      LocalHOnEmptyX(i, L, p);
      assert q.xs == p.xs[i := p.zs[i]];
      assert q.zs == p.zs[i := p.xs[i]];
    } else {
      assert q.xs == p.xs;
      assert q.zs == p.zs;
    }
  }

  /**
   * `tableau_remove_zero_X_columns`: a Hadamard, and H queued, on every qubit
   * whose X slice the trailing-zero scan finds empty.
   */
  method RemoveZeroXColumns(tab: Tableau, queue: CliffordQueue)
    requires tab.Valid() && tab.nQubits <= queue.table.Length
    modifies tab.slicesX, tab.slicesZ, tab.phases, queue.table
    ensures tab.Valid()
    ensures tab.State() == ZeroXColumnsRemoved(old(tab.State()), tab.nQubits, tab.sliceLen)
    ensures forall q :: 0 <= q < queue.table.Length ==>
      queue.table[q] == if q < tab.nQubits && EmptyPrefix(old(tab.slicesX[q]), tab.sliceLen)
        then queue.right(H, old(queue.table[q])) else old(queue.table[q])
  {
    ghost var s0 := tab.State();
    ValidFits(tab);
    assert ZeroXColumnsRemoved(s0, 0, tab.sliceLen) == s0;
    var i := 0;
    while i < tab.nQubits
      invariant 0 <= i <= tab.nQubits && tab.Valid()
      invariant tab.State() == ZeroXColumnsRemoved(s0, i, tab.sliceLen)
      invariant forall q :: 0 <= q < queue.table.Length ==>
        queue.table[q] == if q < i && EmptyPrefix(s0.xs[q], tab.sliceLen)
          then queue.right(H, old(queue.table[q])) else old(queue.table[q])
    {
      ZeroXColumnsStep(s0, i, tab.sliceLen);
      var c := Ctz(tab.slicesX[i], tab.sliceLen);
      if c == CTZ_SENTINEL {
        ApplyLocal(tab, H, i);
        queue.LocalCliffordRight(H, i);
      }
      i := i + 1;
    }
  }
}
