/**
 * The gate kernels of c_lib/src/simd/simd_tableau_operations.c and
 * c_lib/src/simd/tableau_operations_simd.c, acting on a Tableau.
 *
 * The tableau is kept column-major while gates are applied: the X and Z
 * slices of qubit q hold, bit k, the X and Z entry of stabiliser k on q,
 * and bit k of the phase slice is stabiliser k's sign.  A single-qubit
 * kernel on q therefore rewrites the slices of q and the phases word by
 * word, and, for the eight kernels SwapsSlices names, exchanges the two
 * row pointers of q afterwards.
 */
module Kernels {
  import opened Bits
  import opened Cliffords
  import opened Tableaux

  /** The three slices a single-qubit kernel works on: the target's X and Z slices and the phases. */
  datatype Column = Column(x: seq<Word>, z: seq<Word>, r: seq<Word>)

  /** One word position of a Column. */
  datatype WordLane = WordLane(x: Word, z: Word, r: Word)

  predicate Shaped(c: Column)
  {
    |c.x| == |c.r| && |c.z| == |c.r|
  }

  /** The lane of bit k of a column. */
  function LaneAt(c: Column, k: nat): Lane
    requires Shaped(c) && k / 64 < |c.r|
  {
    Lane(Bit(c.x, k), Bit(c.z, k), Bit(c.r, k))
  }

  /** A kernel's loop body on one word: the gate's update on each of its 64 bit positions. */
  function UpdateWord(g: Clifford, w: WordLane): WordLane
  {
    WordLane(
      seq(64, b requires 0 <= b < 64 => Update(g, Lane(w.x[b], w.z[b], w.r[b])).x),
      seq(64, b requires 0 <= b < 64 => Update(g, Lane(w.x[b], w.z[b], w.r[b])).z),
      seq(64, b requires 0 <= b < 64 => Update(g, Lane(w.x[b], w.z[b], w.r[b])).r))
  }

  function WordAt(c: Column, w: nat): WordLane
    requires Shaped(c) && w < |c.r|
  {
    WordLane(c.x[w], c.z[w], c.r[w])
  }

  /** A kernel's loop over the first `n` words of its column, before any pointer exchange. */
  function UpdateColumn(g: Clifford, c: Column, n: nat): (u: Column)
    requires Shaped(c) && n <= |c.r|
    ensures Shaped(u) && |u.r| == |c.r|
  {
    Column(
      seq(|c.r|, w requires 0 <= w < |c.r| => if w < n then UpdateWord(g, WordAt(c, w)).x else c.x[w]),
      seq(|c.r|, w requires 0 <= w < |c.r| => if w < n then UpdateWord(g, WordAt(c, w)).z else c.z[w]),
      seq(|c.r|, w requires 0 <= w < |c.r| => if w < n then UpdateWord(g, WordAt(c, w)).r else c.r[w]))
  }

  /** Bit k of the updated column is the gate's update of bit k when k lies in the processed words. */
  lemma UpdateColumnLane(g: Clifford, c: Column, n: nat, k: nat)
    requires Shaped(c) && n <= |c.r| && k / 64 < |c.r|
    ensures LaneAt(UpdateColumn(g, c, n), k) == if k < 64 * n then Update(g, LaneAt(c, k)) else LaneAt(c, k)
  {
    assert k < 64 * n <==> k / 64 < n;
  }

  /** Processing one more word changes exactly that word of each slice, as the gate's word update. */
  lemma UpdateColumnStep(g: Clifford, c: Column, i: nat)
    requires Shaped(c) && i < |c.r|
    ensures var before, u := UpdateColumn(g, c, i), UpdateWord(g, WordAt(c, i));
      UpdateColumn(g, c, i + 1) == Column(before.x[i := u.x], before.z[i := u.z], before.r[i := u.r])
      && WordAt(before, i) == WordAt(c, i)
  {
    var before, after, u := UpdateColumn(g, c, i), UpdateColumn(g, c, i + 1), UpdateWord(g, WordAt(c, i));
    assert after.x == before.x[i := u.x];
    assert after.z == before.z[i := u.z];
    assert after.r == before.r[i := u.r];
  }

  /** Qubit t has slices as long as the phase slice. */
  predicate HasColumn(s: TabState, t: nat)
  {
    t < |s.xs| && t < |s.zs| && |s.xs[t]| == |s.ph| && |s.zs[t]| == |s.ph|
  }

  function ColumnOf(s: TabState, t: nat): (c: Column)
    requires HasColumn(s, t)
    ensures Shaped(c)
  {
    Column(s.xs[t], s.zs[t], s.ph)
  }

  /**
   * The single-qubit kernel for gate g on qubit t over the first `n` words:
   * the loop's update, then, for the kernels SwapsSlices names, the
   * exchange of the X and Z row pointers of t.
   */
  function Local(g: Clifford, t: nat, n: nat, s: TabState): (r: TabState)
    requires HasColumn(s, t) && n <= |s.ph|
    ensures HasColumn(r, t) && |r.xs| == |s.xs| && |r.zs| == |s.zs| && |r.ph| == |s.ph|
    ensures forall j :: 0 <= j < |s.xs| && j != t ==> r.xs[j] == s.xs[j]
    ensures forall j :: 0 <= j < |s.zs| && j != t ==> r.zs[j] == s.zs[j]
    ensures WellFormed(s) ==> WellFormed(r)
  {
    var u := UpdateColumn(g, ColumnOf(s, t), n);
    if SwapsSlices(g) then TabState(s.xs[t := u.z], s.zs[t := u.x], u.r)
    else TabState(s.xs[t := u.x], s.zs[t := u.z], u.r)
  }

  /** The lane with its X and Z bits exchanged. */
  function Swapped(l: Lane): Lane
  {
    Lane(l.z, l.x, l.r)
  }

  /**
   * Every bit of qubit t's lanes obeys the gate's rule inside the processed
   * words; beyond them the lane only has its X and Z bits exchanged (by the
   * pointer exchange) or is left alone.
   */
  lemma LocalLane(g: Clifford, t: nat, n: nat, s: TabState, k: nat)
    requires HasColumn(s, t) && n <= |s.ph| && k / 64 < |s.ph|
    ensures LaneAt(ColumnOf(Local(g, t, n, s), t), k) ==
      if k < 64 * n then Rule(g, LaneAt(ColumnOf(s, t), k))
      else if SwapsSlices(g) then Swapped(LaneAt(ColumnOf(s, t), k))
      else LaneAt(ColumnOf(s, t), k)
  {
    UpdateColumnLane(g, ColumnOf(s, t), n, k);
  }

  /** Two states that agree on every row except t, and on every lane of t, are equal. */
  lemma StatesEqualByLanes(a: TabState, c: TabState, t: nat)
    requires HasColumn(a, t) && HasColumn(c, t) && |a.xs| == |c.xs| && |a.zs| == |c.zs| && |a.ph| == |c.ph|
    requires forall j :: 0 <= j < |a.xs| && j != t ==> a.xs[j] == c.xs[j]
    requires forall j :: 0 <= j < |a.zs| && j != t ==> a.zs[j] == c.zs[j]
    requires forall k: nat :: k / 64 < |a.ph| ==> LaneAt(ColumnOf(a, t), k) == LaneAt(ColumnOf(c, t), k)
    ensures a == c
  {
    assert forall k: nat :: k / 64 < |a.ph| ==>
      Bit(a.xs[t], k) == Bit(c.xs[t], k) && Bit(a.zs[t], k) == Bit(c.zs[t], k) && Bit(a.ph, k) == Bit(c.ph, k) by {
      forall k: nat | k / 64 < |a.ph|
        ensures Bit(a.xs[t], k) == Bit(c.xs[t], k) && Bit(a.zs[t], k) == Bit(c.zs[t], k) && Bit(a.ph, k) == Bit(c.ph, k)
      {
        assert LaneAt(ColumnOf(a, t), k) == LaneAt(ColumnOf(c, t), k);
      }
    }
    SliceExt(a.xs[t], c.xs[t]);
    SliceExt(a.zs[t], c.zs[t]);
    SliceExt(a.ph, c.ph);
    assert a.xs == c.xs;
    assert a.zs == c.zs;
  }

  /**
   * Kernels compose as their gates do: running b's kernel and then a's
   * equals running c's kernel whenever c's rule is a's after b's and the
   * pointer exchanges agree in parity.
   */
  lemma LocalCompose(a: Clifford, b: Clifford, c: Clifford, t: nat, n: nat, s: TabState)
    requires HasColumn(s, t) && n <= |s.ph|
    requires forall l :: Rule(a, Rule(b, l)) == Rule(c, l)
    requires SwapsSlices(c) == (SwapsSlices(a) != SwapsSlices(b))
    ensures Local(a, t, n, Local(b, t, n, s)) == Local(c, t, n, s)
  {
    var mid := Local(b, t, n, s);
    var two := Local(a, t, n, mid);
    var one := Local(c, t, n, s);
    forall k: nat | k / 64 < |s.ph|
      ensures LaneAt(ColumnOf(two, t), k) == LaneAt(ColumnOf(one, t), k)
    {
      LocalLane(b, t, n, s, k);
      LocalLane(a, t, n, mid, k);
      LocalLane(c, t, n, s, k);
    }
    StatesEqualByLanes(two, one, t);
  }

  /** The identity kernel changes nothing. */
  lemma LocalIdentity(t: nat, n: nat, s: TabState)
    requires HasColumn(s, t) && n <= |s.ph|
    ensures Local(I, t, n, s) == s
  {
    forall k: nat | k / 64 < |s.ph|
      ensures LaneAt(ColumnOf(Local(I, t, n, s), t), k) == LaneAt(ColumnOf(s, t), k)
    {
      LocalLane(I, t, n, s, k);
    }
    StatesEqualByLanes(Local(I, t, n, s), s, t);
  }

  /**
   * `tableau_H`, `tableau_X`, `tableau_Y` and `tableau_Z` undo themselves,
   * and `tableau_R` undoes `tableau_S` and the other way round.
   */
  lemma LocalInverses(t: nat, n: nat, s: TabState)
    requires HasColumn(s, t) && n <= |s.ph|
    ensures Local(H, t, n, Local(H, t, n, s)) == s
    ensures Local(X, t, n, Local(X, t, n, s)) == s
    ensures Local(Y, t, n, Local(Y, t, n, s)) == s
    ensures Local(Z, t, n, Local(Z, t, n, s)) == s
    ensures Local(R, t, n, Local(S, t, n, s)) == s
    ensures Local(S, t, n, Local(R, t, n, s)) == s
  {
    forall l ensures Rule(H, Rule(H, l)) == Rule(I, l) && Rule(X, Rule(X, l)) == Rule(I, l)
      && Rule(Y, Rule(Y, l)) == Rule(I, l) && Rule(Z, Rule(Z, l)) == Rule(I, l)
      && Rule(R, Rule(S, l)) == Rule(I, l) && Rule(S, Rule(R, l)) == Rule(I, l)
    {
      LeftInversesOfGenerators(l);
    }
    LocalIdentity(t, n, s);
    LocalCompose(H, H, I, t, n, s);
    LocalCompose(X, X, I, t, n, s);
    LocalCompose(Y, Y, I, t, n, s);
    LocalCompose(Z, Z, I, t, n, s);
    LocalCompose(R, S, I, t, n, s);
    LocalCompose(S, R, I, t, n, s);
  }

  /**
   * The kernels' own derivations: `tableau_Z` is `tableau_S` twice,
   * `tableau_X` is H, Z, H, and `tableau_Y` is Z followed by X.
   */
  lemma LocalDerivations(t: nat, n: nat, s: TabState)
    requires HasColumn(s, t) && n <= |s.ph|
    ensures Local(Z, t, n, s) == Local(S, t, n, Local(S, t, n, s))
    ensures Local(X, t, n, s) == Local(H, t, n, Local(Z, t, n, Local(H, t, n, s)))
    ensures Local(Y, t, n, s) == Local(X, t, n, Local(Z, t, n, s))
  {
    forall l ensures Rule(S, Rule(S, l)) == Rule(Z, l) && Rule(H, Rule(Z, l)) == Rule(HZ, l)
      && Rule(HZ, Rule(H, l)) == Rule(X, l) && Rule(X, Rule(Z, l)) == Rule(Y, l)
    {
      GeneratorRelations(l);
    }
    LocalCompose(S, S, Z, t, n, s);
    LocalCompose(H, Z, HZ, t, n, Local(H, t, n, s));
    LocalCompose(HZ, H, X, t, n, s);
    LocalCompose(X, Z, Y, t, n, s);
  }

  /** The Pauli kernels only change phases. */
  lemma PaulisKeepSlices(g: Clifford, t: nat, n: nat, s: TabState)
    requires HasColumn(s, t) && n <= |s.ph| && g in {X, Y, Z}
    ensures Local(g, t, n, s).xs == s.xs && Local(g, t, n, s).zs == s.zs
  {
    var r := Local(g, t, n, s);
    forall k: nat | k / 64 < |s.ph|
      ensures Bit(r.xs[t], k) == Bit(s.xs[t], k) && Bit(r.zs[t], k) == Bit(s.zs[t], k)
    {
      LocalLane(g, t, n, s, k);
    }
    SliceExt(r.xs[t], s.xs[t]);
    SliceExt(r.zs[t], s.zs[t]);
    assert r.xs == s.xs;
    assert r.zs == s.zs;
  }

  /** One pass of a single-qubit kernel's loop: word i of the target's slices and of the phases. */
  method LocalStep(tab: Tableau, g: Clifford, targ: nat, i: nat, ghost col: Column)
    requires tab.Valid() && targ < tab.slicesX.Length && i < tab.sliceLen
    requires Shaped(col) && |col.r| == tab.rowWords
    requires ColumnOf(tab.State(), targ) == UpdateColumn(g, col, i)
    modifies tab.slicesX, tab.slicesZ, tab.phases
    ensures tab.Valid()
    ensures forall j :: 0 <= j < tab.slicesX.Length && j != targ ==> tab.slicesX[j] == old(tab.slicesX[j])
    ensures forall j :: 0 <= j < tab.slicesZ.Length && j != targ ==> tab.slicesZ[j] == old(tab.slicesZ[j])
    ensures ColumnOf(tab.State(), targ) == UpdateColumn(g, col, i + 1)
  {
    UpdateColumnStep(g, col, i);
    var u := UpdateWord(g, WordLane(tab.slicesX[targ][i], tab.slicesZ[targ][i], tab.phases[i]));
    tab.phases[i] := u.r;
    tab.slicesX[targ] := tab.slicesX[targ][i := u.x];
    tab.slicesZ[targ] := tab.slicesZ[targ][i := u.z];
  }

  /**
   * The 24 single-qubit kernels `tableau_I` ... `tableau_SHR`, selected by
   * gate: the loop over the first `sliceLen` words rewrites the target's X
   * and Z slices and xors into the phases, and the kernels SwapsSlices
   * names then exchange the target's X and Z row pointers.
   */
  method ApplyLocal(tab: Tableau, g: Clifford, targ: nat)
    requires tab.Valid() && targ < tab.slicesX.Length
    modifies tab.slicesX, tab.slicesZ, tab.phases
    ensures tab.Valid()
    ensures tab.State() == Local(g, targ, tab.sliceLen, old(tab.State()))
  {
    ghost var s0 := tab.State();
    ghost var u := UpdateColumn(g, ColumnOf(s0, targ), tab.sliceLen);
    LocalLoop(tab, g, targ);
    if SwapsSlices(g) {
      ExchangeRows(tab, targ);
      assert tab.State().xs == s0.xs[targ := u.z];
      assert tab.State().zs == s0.zs[targ := u.x];
    }
  }

  /** The loop of a single-qubit kernel: the first `sliceLen` words of the target's slices and of the phases. */
  method LocalLoop(tab: Tableau, g: Clifford, targ: nat)
    requires tab.Valid() && targ < tab.slicesX.Length
    modifies tab.slicesX, tab.slicesZ, tab.phases
    ensures tab.Valid() && tab.sliceLen == old(tab.sliceLen)
    ensures var s0 := old(tab.State());
      var u := UpdateColumn(g, ColumnOf(s0, targ), tab.sliceLen);
      tab.State() == TabState(s0.xs[targ := u.x], s0.zs[targ := u.z], u.r)
  {
    ghost var s0 := tab.State();
    ghost var col := ColumnOf(s0, targ);
    var i, n := 0, tab.sliceLen;
    while i < n
      invariant 0 <= i <= n == tab.sliceLen && tab.Valid()
      invariant forall j :: 0 <= j < tab.slicesX.Length && j != targ ==> tab.slicesX[j] == s0.xs[j]
      invariant forall j :: 0 <= j < tab.slicesZ.Length && j != targ ==> tab.slicesZ[j] == s0.zs[j]
      invariant ColumnOf(tab.State(), targ) == UpdateColumn(g, col, i)
    {
      LocalStep(tab, g, targ, i, col);
      i := i + 1;
    }
    assert tab.slicesX[..] == s0.xs[targ := UpdateColumn(g, col, n).x];
    assert tab.slicesZ[..] == s0.zs[targ := UpdateColumn(g, col, n).z];
  }

  /** The closing pointer exchange of the kernels SwapsSlices names: qubit t's X and Z rows trade places. */
  method ExchangeRows(tab: Tableau, t: nat)
    requires tab.Valid() && t < tab.slicesX.Length
    modifies tab.slicesX, tab.slicesZ
    ensures tab.Valid() && tab.sliceLen == old(tab.sliceLen)
    ensures var s0 := old(tab.State());
      tab.State() == TabState(s0.xs[t := s0.zs[t]], s0.zs[t := s0.xs[t]], s0.ph)
  {
    tab.slicesX[t], tab.slicesZ[t] := tab.slicesZ[t], tab.slicesX[t];
  }

  /** Bit k of XorWords: below the `n` processed words, the sum of both slices' bits. */
  lemma XorWordsBit(a: seq<Word>, b: seq<Word>, n: nat, k: nat)
    requires n <= |a| && n <= |b| && k / 64 < |a|
    ensures Bit(XorWords(a, b, n), k) == if k < 64 * n then Bit(a, k) != Bit(b, k) else Bit(a, k)
  {
    assert k < 64 * n <==> k / 64 < n;
  }

  /** Slice t of `rows` with its first `n` words xor-ed with `src`. */
  function XorInto(rows: seq<seq<Word>>, t: nat, src: seq<Word>, n: nat): (r: seq<seq<Word>>)
    requires t < |rows| && n <= |rows[t]| && n <= |src|
    ensures |r| == |rows| && |r[t]| == |rows[t]|
    ensures forall j :: 0 <= j < |rows| && j != t ==> r[j] == rows[j]
  {
    rows[t := XorWords(rows[t], src, n)]
  }

  /** Qubits c and t both have slices as long as the phase slice. */
  predicate HasPair(s: TabState, c: nat, t: nat)
  {
    HasColumn(s, c) && HasColumn(s, t)
  }

  /** Bit k of both qubits' slices and of the phases. */
  function PairLaneAt(s: TabState, c: nat, t: nat, k: nat): PairLane
    requires HasPair(s, c, t) && k / 64 < |s.ph|
  {
    PairLane(Bit(s.xs[c], k), Bit(s.zs[c], k), Bit(s.xs[t], k), Bit(s.zs[t], k), Bit(s.ph, k))
  }

  /** The word `tableau_CNOT` xors into the phases. */
  function CnotPhase(xc: Word, zc: Word, xt: Word, zt: Word): Word
  {
    And(And(xc, zt), Not(Xor(xt, zc)))
  }

  /** The word the scalar `tableau_CZ` xors into the phases. */
  function CzPhase(xc: Word, zc: Word, xt: Word, zt: Word): Word
  {
    Xor(And(And(xc, xt), zc), And(And(xc, xt), zt))
  }

  /** The phase word the AVX `tableau_CZ` stores, built from its own chain of and, andnot and xor. */
  function CzAvxPhase(xc: Word, zc: Word, xt: Word, zt: Word, r: Word): Word
  {
    var a := And(xt, zt);
    var b := And(Not(Xor(zt, zc)), And(xc, xt));
    var d := And(Xor(zt, xc), xt);
    Xor(d, Xor(b, Xor(a, r)))
  }

  /** The AVX phase chain is the scalar phase update, word for word. */
  lemma CzAvxPhaseAgrees(xc: Word, zc: Word, xt: Word, zt: Word, r: Word)
    ensures CzAvxPhase(xc, zc, xt, zt, r) == Xor(r, CzPhase(xc, zc, xt, zt))
  {
    forall b | 0 <= b < 64
      ensures CzAvxPhase(xc, zc, xt, zt, r)[b] == Xor(r, CzPhase(xc, zc, xt, zt))[b]
    {
      AvxCzAgrees(PairLane(xc[b], zc[b], xt[b], zt[b], r[b]));
    }
  }

  /** The phase words a two-qubit kernel xors in over its first `n` words. */
  function PhaseTerms(g: TwoQubitGate, s: TabState, c: nat, t: nat, n: nat): (p: seq<Word>)
    requires HasPair(s, c, t) && n <= |s.ph|
    ensures |p| == n
  {
    seq(n, w requires 0 <= w < n =>
      match g
      case CNOT => CnotPhase(s.xs[c][w], s.zs[c][w], s.xs[t][w], s.zs[t][w])
      case CZ => CzPhase(s.xs[c][w], s.zs[c][w], s.xs[t][w], s.zs[t][w]))
  }

  /**
   * `tableau_CNOT` and the scalar `tableau_CZ` over the first `n` words, with
   * their statements in the order the loops run them (so that a control
   * equal to the target reads what the earlier statement wrote):
   * CNOT xors control X into target X and target Z into control Z; CZ xors
   * control X into target Z, then target X into control Z.
   */
  function Two(g: TwoQubitGate, c: nat, t: nat, n: nat, s: TabState): (r: TabState)
    requires HasPair(s, c, t) && n <= |s.ph|
    ensures HasPair(r, c, t) && |r.xs| == |s.xs| && |r.zs| == |s.zs| && |r.ph| == |s.ph|
    ensures forall j :: 0 <= j < |s.xs| && j != c && j != t ==> r.xs[j] == s.xs[j]
    ensures forall j :: 0 <= j < |s.zs| && j != c && j != t ==> r.zs[j] == s.zs[j]
    ensures WellFormed(s) ==> WellFormed(r)
  {
    var ph := XorWords(s.ph, PhaseTerms(g, s, c, t, n), n);
    match g
    case CNOT => TabState(XorInto(s.xs, t, s.xs[c], n), XorInto(s.zs, c, s.zs[t], n), ph)
    case CZ => TabState(s.xs, XorInto(XorInto(s.zs, t, s.xs[c], n), c, s.xs[t], n), ph)
  }

  /**
   * For distinct qubits, every bit position inside the processed words obeys
   * the gate's lane rule, and every bit beyond them is left alone.
   */
  lemma TwoLane(g: TwoQubitGate, c: nat, t: nat, n: nat, s: TabState, k: nat)
    requires HasPair(s, c, t) && n <= |s.ph| && c != t && k / 64 < |s.ph|
    ensures PairLaneAt(Two(g, c, t, n, s), c, t, k) ==
      if k < 64 * n then PairRule(g, PairLaneAt(s, c, t, k)) else PairLaneAt(s, c, t, k)
  {
    var terms := PhaseTerms(g, s, c, t, n);
    XorWordsBit(s.ph, terms, n, k);
    XorWordsBit(s.xs[t], s.xs[c], n, k);
    XorWordsBit(s.zs[c], s.zs[t], n, k);
    XorWordsBit(s.zs[t], s.xs[c], n, k);
    XorWordsBit(s.zs[c], s.xs[t], n, k);
    if k < 64 * n {
      assert k / 64 < n;
      assert Bit(terms, k) == terms[k / 64][k % 64];
    }
  }

  /** Two states that agree on every row except c and t, and on every lane of (c, t), are equal. */
  lemma StatesEqualByPairLanes(a: TabState, d: TabState, c: nat, t: nat)
    requires HasPair(a, c, t) && HasPair(d, c, t) && |a.xs| == |d.xs| && |a.zs| == |d.zs| && |a.ph| == |d.ph|
    requires forall j :: 0 <= j < |a.xs| && j != c && j != t ==> a.xs[j] == d.xs[j]
    requires forall j :: 0 <= j < |a.zs| && j != c && j != t ==> a.zs[j] == d.zs[j]
    requires forall k: nat :: k / 64 < |a.ph| ==> PairLaneAt(a, c, t, k) == PairLaneAt(d, c, t, k)
    ensures a == d
  {
    forall k: nat | k / 64 < |a.ph|
      ensures Bit(a.xs[c], k) == Bit(d.xs[c], k) && Bit(a.zs[c], k) == Bit(d.zs[c], k)
      ensures Bit(a.xs[t], k) == Bit(d.xs[t], k) && Bit(a.zs[t], k) == Bit(d.zs[t], k)
      ensures Bit(a.ph, k) == Bit(d.ph, k)
    {
      assert PairLaneAt(a, c, t, k) == PairLaneAt(d, c, t, k);
    }
    SliceExt(a.xs[c], d.xs[c]);
    SliceExt(a.zs[c], d.zs[c]);
    SliceExt(a.xs[t], d.xs[t]);
    SliceExt(a.zs[t], d.zs[t]);
    SliceExt(a.ph, d.ph);
    assert a.xs == d.xs;
    assert a.zs == d.zs;
  }

  /** CNOT and CZ on two distinct qubits undo themselves. */
  lemma TwoInvolution(g: TwoQubitGate, c: nat, t: nat, n: nat, s: TabState)
    requires HasPair(s, c, t) && n <= |s.ph| && c != t
    ensures Two(g, c, t, n, Two(g, c, t, n, s)) == s
  {
    var once := Two(g, c, t, n, s);
    var twice := Two(g, c, t, n, once);
    forall k: nat | k / 64 < |s.ph|
      ensures PairLaneAt(twice, c, t, k) == PairLaneAt(s, c, t, k)
    {
      TwoLane(g, c, t, n, s, k);
      TwoLane(g, c, t, n, once, k);
      PairInvolutions(PairLaneAt(s, c, t, k));
    }
    StatesEqualByPairLanes(twice, s, c, t);
  }

  /**
   * The derivation in the CZ kernels' header: on distinct qubits, CZ is a
   * Hadamard on the target, CNOT, and a Hadamard on the target again.
   */
  lemma CzIsHCnotH(c: nat, t: nat, n: nat, s: TabState)
    requires HasPair(s, c, t) && n <= |s.ph| && c != t
    ensures Two(CZ, c, t, n, s) == Local(H, t, n, Two(CNOT, c, t, n, Local(H, t, n, s)))
  {
    var h1 := Local(H, t, n, s);
    var cx := Two(CNOT, c, t, n, h1);
    var h2 := Local(H, t, n, cx);
    var cz := Two(CZ, c, t, n, s);
    forall k: nat | k / 64 < |s.ph|
      ensures PairLaneAt(h2, c, t, k) == PairLaneAt(cz, c, t, k)
    {
      var p := PairLaneAt(s, c, t, k);
      HadamardPairLane(c, t, n, s, k);
      HadamardPairLane(c, t, n, cx, k);
      TwoLane(CNOT, c, t, n, h1, k);
      TwoLane(CZ, c, t, n, s, k);
      if k < 64 * n {
        CzIsConjugatedCnot(p);
      }
    }
    StatesEqualByPairLanes(h2, cz, c, t);
  }

  /** A Hadamard kernel on the target, seen on a pair lane: H on the target half where processed, the exchange elsewhere. */
  lemma HadamardPairLane(c: nat, t: nat, n: nat, s: TabState, k: nat)
    requires HasPair(s, c, t) && n <= |s.ph| && c != t && k / 64 < |s.ph|
    ensures HasPair(Local(H, t, n, s), c, t)
    ensures var p := PairLaneAt(s, c, t, k);
      PairLaneAt(Local(H, t, n, s), c, t, k) ==
        if k < 64 * n then OnTarget(H, p) else PairLane(p.xc, p.zc, p.zt, p.xt, p.r)
  {
    LocalLane(H, t, n, s, k);
  }

  /** The state after a two-qubit kernel's loop body ran on word i of state p, as the loop writes it. */
  function TwoStep(g: TwoQubitGate, c: nat, t: nat, i: nat, p: TabState): (r: TabState)
    requires HasPair(p, c, t) && i < |p.ph|
  {
    var xc, zc, xt, zt := p.xs[c][i], p.zs[c][i], p.xs[t][i], p.zs[t][i];
    match g
    case CNOT =>
      var xt': Word := Xor(xt, xc);
      var zc': Word := Xor(zc, p.zs[t][i]);
      var rowXt: seq<Word> := p.xs[t][i := xt'];
      var rowZc: seq<Word> := p.zs[c][i := zc'];
      var xs := p.xs[t := rowXt];
      var zs := p.zs[c := rowZc];
      TabState(xs, zs, p.ph[i := Xor(p.ph[i], CnotPhase(xc, zc, xt, zt))])
    case CZ =>
      var zt': Word := Xor(zt, xc);
      var rowZt: seq<Word> := p.zs[t][i := zt'];
      var zs := p.zs[t := rowZt];
      var zc': Word := Xor(zs[c][i], xt);
      var rowZc: seq<Word> := zs[c][i := zc'];
      var zs' := zs[c := rowZc];
      TabState(p.xs, zs', p.ph[i := Xor(p.ph[i], CzPhase(xc, zc, xt, zt))])
  }

  /** Running the loop body on word i extends the processed prefix by that word. */
  lemma TwoStepExtends(g: TwoQubitGate, c: nat, t: nat, i: nat, s: TabState)
    requires HasPair(s, c, t) && i < |s.ph|
    ensures TwoStep(g, c, t, i, Two(g, c, t, i, s)) == Two(g, c, t, i + 1, s)
  {
    var p, q := Two(g, c, t, i, s), Two(g, c, t, i + 1, s);
    var r := TwoStep(g, c, t, i, p);
    assert r.ph == q.ph;
    match g
    case CNOT =>
      assert r.xs[t] == q.xs[t];
      assert r.zs[c] == q.zs[c];
      assert r.xs == q.xs;
      assert r.zs == q.zs;
    case CZ =>
      assert r.zs[c] == q.zs[c];
      assert r.zs[t] == q.zs[t];
      assert r.zs == q.zs;
  }

  /** With no word processed, a two-qubit kernel has changed nothing. */
  lemma TwoNothingYet(g: TwoQubitGate, c: nat, t: nat, s: TabState)
    requires HasPair(s, c, t)
    ensures Two(g, c, t, 0, s) == s
  {
    assert XorWords(s.ph, PhaseTerms(g, s, c, t, 0), 0) == s.ph;
    assert XorWords(s.xs[t], s.xs[c], 0) == s.xs[t];
    assert XorWords(s.zs[c], s.zs[t], 0) == s.zs[c];
    assert XorWords(s.zs[t], s.xs[c], 0) == s.zs[t];
    assert XorWords(s.zs[c], s.xs[t], 0) == s.zs[c];
  }

  /** One pass of `tableau_CNOT`'s or the scalar `tableau_CZ`'s loop, on word i. */
  method TwoWord(tab: Tableau, g: TwoQubitGate, ctrl: nat, targ: nat, i: nat)
    requires tab.Valid() && ctrl < tab.slicesX.Length && targ < tab.slicesX.Length && i < tab.rowWords
    modifies tab.slicesX, tab.slicesZ, tab.phases
    ensures tab.Valid()
    ensures tab.State() == TwoStep(g, ctrl, targ, i, old(tab.State()))
  {
    var xc, zc, xt, zt := tab.slicesX[ctrl][i], tab.slicesZ[ctrl][i], tab.slicesX[targ][i], tab.slicesZ[targ][i];
    match g
    case CNOT =>
      tab.phases[i] := Xor(tab.phases[i], CnotPhase(xc, zc, xt, zt));
      tab.slicesX[targ] := tab.slicesX[targ][i := Xor(tab.slicesX[targ][i], tab.slicesX[ctrl][i])];
      tab.slicesZ[ctrl] := tab.slicesZ[ctrl][i := Xor(tab.slicesZ[ctrl][i], tab.slicesZ[targ][i])];
    case CZ =>
      tab.phases[i] := Xor(tab.phases[i], CzPhase(xc, zc, xt, zt));
      tab.slicesZ[targ] := tab.slicesZ[targ][i := Xor(tab.slicesZ[targ][i], tab.slicesX[ctrl][i])];
      tab.slicesZ[ctrl] := tab.slicesZ[ctrl][i := Xor(tab.slicesZ[ctrl][i], tab.slicesX[targ][i])];
  }

  /**
   * `tableau_CNOT` (g = CNOT) and the scalar `tableau_CZ` (g = CZ): one loop
   * over the first `sliceLen` words.
   */
  method ApplyTwo(tab: Tableau, g: TwoQubitGate, ctrl: nat, targ: nat)
    requires tab.Valid() && ctrl < tab.slicesX.Length && targ < tab.slicesX.Length
    modifies tab.slicesX, tab.slicesZ, tab.phases
    ensures tab.Valid()
    ensures tab.State() == Two(g, ctrl, targ, tab.sliceLen, old(tab.State()))
  {
    ghost var s0 := tab.State();
    TwoNothingYet(g, ctrl, targ, s0);
    var i := 0;
    while i < tab.sliceLen
      invariant 0 <= i <= tab.sliceLen && tab.Valid()
      invariant tab.State() == Two(g, ctrl, targ, i, s0)
    {
      TwoWord(tab, g, ctrl, targ, i);
      TwoStepExtends(g, ctrl, targ, i, s0);
      i := i + 1;
    }
  }

  /**
   * The AVX `tableau_CZ` over the first `n` words.  Each pass loads all five
   * words before it stores anything, so both Z updates read the loaded
   * values: control Z ^= target X, target Z ^= control X.
   */
  function CzAvxState(c: nat, t: nat, n: nat, s: TabState): (r: TabState)
    requires HasPair(s, c, t) && n <= |s.ph|
    ensures HasPair(r, c, t) && |r.xs| == |s.xs| && |r.zs| == |s.zs| && |r.ph| == |s.ph|
  {
    var zc := XorWords(s.zs[c], s.xs[t], n);
    var zt := XorWords(s.zs[t], s.xs[c], n);
    var ph := seq(|s.ph|, w requires 0 <= w < |s.ph| =>
      if w < n then CzAvxPhase(s.xs[c][w], s.zs[c][w], s.xs[t][w], s.zs[t][w], s.ph[w]) else s.ph[w]);
    TabState(s.xs, s.zs[c := zc][t := zt], ph)
  }

  /** On distinct qubits the AVX CZ kernel computes exactly what the scalar one does. */
  lemma CzAvxMatchesScalar(c: nat, t: nat, n: nat, s: TabState)
    requires HasPair(s, c, t) && n <= |s.ph| && c != t
    ensures CzAvxState(c, t, n, s) == Two(CZ, c, t, n, s)
  {
    var a, b := CzAvxState(c, t, n, s), Two(CZ, c, t, n, s);
    forall w | 0 <= w < |s.ph| ensures a.ph[w] == b.ph[w] {
      if w < n {
        CzAvxPhaseAgrees(s.xs[c][w], s.zs[c][w], s.xs[t][w], s.zs[t][w], s.ph[w]);
      }
    }
    assert a.ph == b.ph;
    assert a.zs == b.zs;
  }

  /**
   * With the control equal to the target the two CZ kernels part ways: the
   * scalar kernel's two xors cancel and leave the tableau as it was, while
   * the AVX kernel, storing from loaded values, xors the qubit's X slice into
   * its Z slice.
   */
  lemma CzKernelsOnOneQubit(q: nat, n: nat, s: TabState)
    requires HasColumn(s, q) && n <= |s.ph|
    ensures Two(CZ, q, q, n, s) == s
    ensures CzAvxState(q, q, n, s).zs[q] == XorWords(s.zs[q], s.xs[q], n)
  {
    var r := Two(CZ, q, q, n, s);
    forall w | 0 <= w < |s.ph| ensures r.ph[w] == s.ph[w] && r.zs[q][w] == s.zs[q][w] {
      if w < n {
        var x, z := s.xs[q][w], s.zs[q][w];
        assert r.zs[q][w] == Xor(Xor(z, x), x);
        assert r.ph[w] == Xor(s.ph[w], CzPhase(x, z, x, z));
      }
    }
    assert r.ph == s.ph;
    assert r.zs[q] == s.zs[q];
    assert r.zs == s.zs;
  }

  /** The state after the AVX CZ loop body ran on word i of state p: load, compute, then store. */
  function CzAvxStep(c: nat, t: nat, i: nat, p: TabState): (r: TabState)
    requires HasPair(p, c, t) && i < |p.ph|
  {
    var xc, zc, xt, zt, ph := p.xs[c][i], p.zs[c][i], p.xs[t][i], p.zs[t][i], p.ph[i];
    var zc': Word := Xor(zc, xt);
    var zt': Word := Xor(zt, xc);
    var rowZc: seq<Word> := p.zs[c][i := zc'];
    var zs := p.zs[c := rowZc];
    var rowZt: seq<Word> := zs[t][i := zt'];
    TabState(p.xs, zs[t := rowZt], p.ph[i := CzAvxPhase(xc, zc, xt, zt, ph)])
  }

  /** Running the AVX loop body on word i extends the processed prefix by that word. */
  lemma CzAvxStepExtends(c: nat, t: nat, i: nat, s: TabState)
    requires HasPair(s, c, t) && i < |s.ph|
    ensures CzAvxStep(c, t, i, CzAvxState(c, t, i, s)) == CzAvxState(c, t, i + 1, s)
  {
    var p, q := CzAvxState(c, t, i, s), CzAvxState(c, t, i + 1, s);
    var r := CzAvxStep(c, t, i, p);
    assert r.ph == q.ph;
    assert r.zs[c] == q.zs[c];
    assert r.zs[t] == q.zs[t];
    assert r.zs == q.zs;
  }

  /** With no word processed, the AVX CZ kernel has changed nothing. */
  lemma CzAvxNothingYet(c: nat, t: nat, s: TabState)
    requires HasPair(s, c, t)
    ensures CzAvxState(c, t, 0, s) == s
  {
    var r := CzAvxState(c, t, 0, s);
    assert r.ph == s.ph;
    assert XorWords(s.zs[c], s.xs[t], 0) == s.zs[c];
    assert XorWords(s.zs[t], s.xs[c], 0) == s.zs[t];
    assert r.zs == s.zs;
  }

  /** One pass of the AVX CZ loop: load the five words, compute, store control Z, target Z and phase. */
  method CzAvxWord(tab: Tableau, ctrl: nat, targ: nat, i: nat)
    requires tab.Valid() && ctrl < tab.slicesX.Length && targ < tab.slicesX.Length && i < tab.rowWords
    modifies tab.slicesZ, tab.phases
    ensures tab.Valid()
    ensures tab.State() == CzAvxStep(ctrl, targ, i, old(tab.State()))
  {
    var ctrlX, ctrlZ, targX, targZ, phase :=
      tab.slicesX[ctrl][i], tab.slicesZ[ctrl][i], tab.slicesX[targ][i], tab.slicesZ[targ][i], tab.phases[i];
    var newPhase := CzAvxPhase(ctrlX, ctrlZ, targX, targZ, phase);
    ctrlZ := Xor(ctrlZ, targX);
    targZ := Xor(targZ, ctrlX);
    tab.slicesZ[ctrl] := tab.slicesZ[ctrl][i := ctrlZ];
    tab.slicesZ[targ] := tab.slicesZ[targ][i := targZ];
    tab.phases[i] := newPhase;
  }

  /**
   * The AVX `tableau_CZ`, looping over the `sliceLen` words the tableau's
   * slices hold (see AvxCzLoopOverruns for the bound as written).
   */
  method CzAvx(tab: Tableau, ctrl: nat, targ: nat)
    requires tab.Valid() && ctrl < tab.slicesX.Length && targ < tab.slicesX.Length
    modifies tab.slicesZ, tab.phases
    ensures tab.Valid()
    ensures tab.State() == CzAvxState(ctrl, targ, tab.sliceLen, old(tab.State()))
    ensures ctrl != targ ==> tab.State() == Two(CZ, ctrl, targ, tab.sliceLen, old(tab.State()))
  {
    ghost var s0 := tab.State();
    CzAvxNothingYet(ctrl, targ, s0);
    var i := 0;
    while i < tab.sliceLen
      invariant 0 <= i <= tab.sliceLen && tab.Valid()
      invariant tab.State() == CzAvxState(ctrl, targ, i, s0)
    {
      CzAvxWord(tab, ctrl, targ, i);
      CzAvxStepExtends(ctrl, targ, i, s0);
      i := i + 1;
    }
    if ctrl != targ {
      CzAvxMatchesScalar(ctrl, targ, tab.sliceLen, s0);
    }
  }

  /**
   * Words the AVX CZ loop touches as written: its index runs over
   * `n_qubits` in steps of 32, but is a byte offset, and every step moves a
   * 32-byte (4-word) chunk.
   */
  function AvxCzWordsAsWritten(nQubits: nat): nat
  {
    4 * CeilDiv(nQubits, 32)
  }

  /**
   * As written, the AVX CZ loop moves more words of each slice than
   * tableau_create allocated, for every tableau of more than 64 qubits
   * (at 100 qubits: 16 words moved, 8 allocated).
   */
  lemma AvxCzLoopOverruns(n: nat)
    requires n > 64
    ensures AvxCzWordsAsWritten(n) > RowWords(n)
  {
  }

  /**
   * Words the AVX kernels `tableau_SH`, `tableau_RH`, `tableau_HS` and
   * `tableau_HR` touch as written: the byte offset runs below
   * `n_qubits / 8` in 32-byte (4-word) steps.
   */
  function AvxLocalWordsAsWritten(nQubits: nat): nat
  {
    4 * CeilDiv(nQubits / 8, 32)
  }

  /** Those four kernels as written: the gate's update on only the words their loop reaches. */
  function LocalAvxAsWritten(g: Clifford, t: nat, nQubits: nat, s: TabState): TabState
    requires g in {SH, RH, HS, HR}
    requires HasColumn(s, t) && AvxLocalWordsAsWritten(nQubits) <= |s.ph|
  {
    Local(g, t, AvxLocalWordsAsWritten(nQubits), s)
  }

  /**
   * Below 8 qubits the AVX loop never runs: on a 5-qubit tableau whose
   * stabiliser 0 has an X on qubit 0, `tableau_SH` as written leaves that X
   * in place, where SH (the per-bit rule over all `sliceLen` words) moves it
   * to Z.
   */
  lemma AvxLocalLoopSkipsSmallTableaux()
    ensures var s := TabState([[One()]], [[Zero()]], [Zero()]);
      AvxLocalWordsAsWritten(5) == 0 && SliceLenSizeT(5) == 1
      && LocalAvxAsWritten(SH, 0, 5, s) == s
      && Local(SH, 0, SliceLenSizeT(5), s) != s
  {
    var s := TabState([[One()]], [[Zero()]], [Zero()]);
    LocalIdentityOnNoWords(SH, 0, s);
    LocalLane(SH, 0, 1, s, 0);
    assert LaneAt(ColumnOf(s, 0), 0) == Lane(true, false, false);
    assert LaneAt(ColumnOf(Local(SH, 0, 1, s), 0), 0) == Lane(false, true, false);
  }

  /** A kernel that processes no word and exchanges no pointers changes nothing. */
  lemma LocalIdentityOnNoWords(g: Clifford, t: nat, s: TabState)
    requires HasColumn(s, t) && !SwapsSlices(g)
    ensures Local(g, t, 0, s) == s
  {
    forall k: nat | k / 64 < |s.ph|
      ensures LaneAt(ColumnOf(Local(g, t, 0, s), t), k) == LaneAt(ColumnOf(s, t), k)
    {
      LocalLane(g, t, 0, s, k);
    }
    StatesEqualByLanes(Local(g, t, 0, s), s, t);
  }
}
