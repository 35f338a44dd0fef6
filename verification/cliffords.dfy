/**
 * The gate algebra behind the tableau kernels
 * (c_lib/src/simd/simd_tableau_operations.c, c_lib/src/simd/tableau_operations_simd.c).
 *
 * Every gate acts on each tableau row independently, and inside a row on each
 * bit position independently, so its effect is a boolean function of the
 * bits it touches.  A single-qubit gate reads and writes the lane
 * (x, z, r): the X bit and the Z bit of the target qubit's column and the
 * row's phase bit.  A two-qubit gate reads and writes (x, z) of both qubits
 * and the phase bit.
 *
 * Gate names compose right to left: `HX` is X followed by H.
 */
module Cliffords {

  /** The 24 single-qubit Clifford operations, named as the kernels are. */
  datatype Clifford =
    | I | X | Y | Z | H | S | R
    | HX | SX | RX | HZ | HY
    | SH | RH | HS | HR
    | HSX | HRX | SHY | RHY
    | HSH | HRH | RHS | SHR

  /** One bit position of one row: its X bit, its Z bit and its phase bit. */
  datatype Lane = Lane(x: bool, z: bool, r: bool)

  /**
   * Whether a kernel ends by exchanging the target's X and Z row pointers
   * rather than writing the exchanged values back.
   */
  predicate SwapsSlices(g: Clifford)
  {
    g in {H, HX, HZ, HY, HSX, HRX, SHY, RHY}
  }

  /**
   * The word update each kernel performs inside its loop, before any
   * pointer exchange.  `HY` uses the phase update its own derivation gives,
   * `r ^= x | z`; see UpdateAsWritten for the update as coded.
   */
  function Update(g: Clifford, l: Lane): Lane
  {
    var x, z, r := l.x, l.z, l.r;
    match g
    case I => l
    case H => Lane(x, z, r != (x && z))
    case S => Lane(x, z != x, r != (x && z))
    case Z => Lane(x, z, r != x)
    case R => Lane(x, z != x, r != (x && !z))
    case X => Lane(x, z, r != z)
    case Y => Lane(x, z, r != (z != x))
    case HX => Lane(x, z, r != (!x && z))
    case SX => Lane(x, z != x, r != (!x && z))
    case RX => Lane(x, z != x, r != (x || z))
    case HZ => Lane(x, z, r != (!z && x))
    case HY => Lane(x, z, r != (x || z))
    case SH => Lane(z, x != z, r)
    case RH => Lane(z, x != z, r != z)
    case HS => Lane(x != z, x, r != x)
    case HR => Lane(x != z, x, r)
    case HSX => Lane(x, z != x, r != (x != z))
    case HRX => Lane(x, z != x, r != z)
    case SHY => Lane(x != z, z, r != (z != x))
    case RHY => Lane(x != z, z, r != x)
    case HSH => Lane(x != z, z, r != (!x && z))
    case HRH => Lane(x != z, z, r != (x && z))
    case RHS => Lane(x != z, z, r != (x || z))
    case SHR => Lane(x != z, z, r != (x && !z))
  }

  /** The kernels' word updates exactly as coded: only `HY` differs from Update. */
  function UpdateAsWritten(g: Clifford, l: Lane): Lane
  {
    if g == HY then Lane(l.x, l.z, l.r != (l.z != l.x)) else Update(g, l)
  }

  /** The complete effect of a gate on one lane: the loop's update, then the pointer exchange. */
  function Rule(g: Clifford, l: Lane): Lane
  {
    var u := Update(g, l);
    if SwapsSlices(g) then Lane(u.z, u.x, u.r) else u
  }

  /** The complete effect of a gate as coded. */
  function RuleAsWritten(g: Clifford, l: Lane): Lane
  {
    var u := UpdateAsWritten(g, l);
    if SwapsSlices(g) then Lane(u.z, u.x, u.r) else u
  }

  /** A product of gates, the last one applied first. */
  function Product(gs: seq<Clifford>, l: Lane): Lane
  {
    if gs == [] then l else Rule(gs[0], Product(gs[1..], l))
  }

  /** The factors that each gate's name spells out, over I, H, S, R, X, Y and Z. */
  function Factors(g: Clifford): (fs: seq<Clifford>)
    ensures forall k :: 0 <= k < |fs| ==> fs[k] in {I, H, S, R, X, Y, Z}
  {
    match g
    case HX => [H, X]
    case SX => [S, X]
    case RX => [R, X]
    case HZ => [H, Z]
    case HY => [H, Y]
    case SH => [S, H]
    case RH => [R, H]
    case HS => [H, S]
    case HR => [H, R]
    case HSX => [H, S, X]
    case HRX => [H, R, X]
    case SHY => [S, H, Y]
    case RHY => [R, H, Y]
    case HSH => [H, S, H]
    case HRH => [H, R, H]
    case RHS => [R, H, S]
    case SHR => [S, H, R]
    case _ => [g]
  }

  /**
   * The generators relate as the kernels' derivations say:
   * Z = S S, R = S S S, X = H Z H and Y = X Z; H, S and R are involutions or
   * mutual inverses.
   */
  lemma GeneratorRelations(l: Lane)
    ensures Rule(Z, l) == Rule(S, Rule(S, l))
    ensures Rule(R, l) == Rule(S, Rule(S, Rule(S, l)))
    ensures Rule(X, l) == Rule(H, Rule(Z, Rule(H, l)))
    ensures Rule(Y, l) == Rule(X, Rule(Z, l))
    ensures Rule(H, Rule(H, l)) == l
    ensures Rule(S, Rule(R, l)) == l && Rule(R, Rule(S, l)) == l
  {
  }

  /** Every gate does what the product of the factors in its name does. */
  lemma {:induction false} NamedProduct(g: Clifford, l: Lane)
    ensures Rule(g, l) == Product(Factors(g), l)
  {
    match g
    case HX => ProductOfTwo(H, X, l);
    case SX => ProductOfTwo(S, X, l);
    case RX => ProductOfTwo(R, X, l);
    case HZ => ProductOfTwo(H, Z, l);
    case HY => ProductOfTwo(H, Y, l);
    case SH => ProductOfTwo(S, H, l);
    case RH => ProductOfTwo(R, H, l);
    case HS => ProductOfTwo(H, S, l);
    case HR => ProductOfTwo(H, R, l);
    case HSX => ProductOfThree(H, S, X, l);
    case HRX => ProductOfThree(H, R, X, l);
    case SHY => ProductOfThree(S, H, Y, l);
    case RHY => ProductOfThree(R, H, Y, l);
    case HSH => ProductOfThree(H, S, H, l);
    case HRH => ProductOfThree(H, R, H, l);
    case RHS => ProductOfThree(R, H, S, l);
    case SHR => ProductOfThree(S, H, R, l);
    case _ => assert Product([g], l) == Rule(g, Product([], l));
  }

  lemma ProductOfTwo(a: Clifford, b: Clifford, l: Lane)
    ensures Product([a, b], l) == Rule(a, Rule(b, l))
  {
    assert [b][1..] == [];
    assert Product([b], l) == Rule(b, l);
    assert [a, b][1..] == [b];
  }

  lemma ProductOfThree(a: Clifford, b: Clifford, c: Clifford, l: Lane)
    ensures Product([a, b, c], l) == Rule(a, Rule(b, Rule(c, l)))
  {
    assert [a, b, c][1..] == [b, c];
    ProductOfTwo(b, c, l);
  }

  /**
   * The HY kernel as coded is not H after Y: on a lane with both X and Z set
   * it leaves the phase bit where the product flips it.
   */
  lemma HYAsWrittenIsNotHAfterY()
    ensures RuleAsWritten(HY, Lane(true, true, false)) != Rule(H, Rule(Y, Lane(true, true, false)))
    ensures RuleAsWritten(HY, Lane(true, true, false)).r == false
  {
  }

  /** As coded, `H` after `HY` is not `Y` (the composition-table check of H HY = Y). */
  lemma HYAsWrittenBreaksInverse()
    ensures Rule(H, RuleAsWritten(HY, Lane(true, true, false))) != Rule(Y, Lane(true, true, false))
  {
  }

  /** Left composition `LEFT(a, b)`: b applied first, then a. */
  function Left(a: Clifford, b: Clifford, l: Lane): Lane
  {
    Rule(a, Rule(b, l))
  }

  /** Right composition `RIGHT(a, b)`: a applied first, then b. */
  function Right(a: Clifford, b: Clifford, l: Lane): Lane
  {
    Rule(b, Rule(a, l))
  }

  /** The identity is neutral on both sides. */
  lemma IdentityNeutral(g: Clifford, l: Lane)
    ensures Left(g, I, l) == Rule(g, l) && Left(I, g, l) == Rule(g, l)
    ensures Right(g, I, l) == Rule(g, l) && Right(I, g, l) == Rule(g, l)
  {
  }

  /** Entries of the composition table that the library's tests pin down. */
  lemma CompositionTable(l: Lane)
    ensures Left(I, I, l) == Rule(I, l)
    ensures Left(X, I, l) == Rule(X, l)
    ensures Left(X, X, l) == Rule(I, l)
    ensures Left(H, H, l) == Rule(I, l)
    ensures Left(X, Z, l) == Rule(Y, l)
    ensures Left(S, HR, l) == Rule(SHR, l)
  {
  }

  /** Left cancellations of the composition table among the generators: LEFT(a, b) == I. */
  lemma LeftInversesOfGenerators(l: Lane)
    ensures Left(X, X, l) == l && Left(Y, Y, l) == l && Left(Z, Z, l) == l
    ensures Left(H, H, l) == l
    ensures Left(S, R, l) == l && Left(R, S, l) == l
  {
  }

  /** Left cancellations of two-letter gates ending in a Pauli: LEFT(a, b) == c. */
  lemma LeftInversesOfPairs(l: Lane)
    ensures Left(H, HX, l) == Rule(X, l)
    ensures Left(R, SX, l) == Rule(X, l) && Left(S, RX, l) == Rule(X, l)
    ensures Left(H, HY, l) == Rule(Y, l)
    ensures Left(H, HZ, l) == Rule(Z, l)
  {
  }

  /** Left cancellations of two-letter gates without a Pauli: LEFT(a, b) == c. */
  lemma LeftInversesOfMixedPairs(l: Lane)
    ensures Left(R, SH, l) == Rule(H, l) && Left(S, RH, l) == Rule(H, l)
    ensures Left(H, HS, l) == Rule(S, l) && Left(H, HR, l) == Rule(R, l)
  {
  }

  /** Left cancellations of three-letter gates ending in a Pauli: LEFT(a, b) == c. */
  lemma LeftInversesOfTriples(l: Lane)
    ensures Left(H, HSX, l) == Rule(SX, l) && Left(H, HRX, l) == Rule(RX, l)
    ensures Left(R, SHY, l) == Rule(HY, l) && Left(S, RHY, l) == Rule(HY, l)
  {
  }

  /** Left cancellations of three-letter gates without a Pauli: LEFT(a, b) == c. */
  lemma LeftInversesOfSandwiches(l: Lane)
    ensures Left(H, HSH, l) == Rule(SH, l) && Left(H, HRH, l) == Rule(RH, l)
    ensures Left(S, RHS, l) == Rule(HS, l) && Left(R, SHR, l) == Rule(HR, l)
  {
  }

  /** Right cancellations of the composition table among the generators: RIGHT(a, b) == I. */
  lemma RightInversesOfGenerators(l: Lane)
    ensures Right(X, X, l) == l && Right(Y, Y, l) == l && Right(Z, Z, l) == l
    ensures Right(H, H, l) == l
    ensures Right(S, R, l) == l && Right(R, S, l) == l
  {
  }

  /** Right cancellations of two-letter gates ending in a Pauli: RIGHT(a, b) == c. */
  lemma RightInversesOfPairs(l: Lane)
    ensures Right(X, HX, l) == Rule(H, l)
    ensures Right(X, SX, l) == Rule(S, l) && Right(X, RX, l) == Rule(R, l)
    ensures Right(Y, HY, l) == Rule(H, l)
    ensures Right(Z, HZ, l) == Rule(H, l)
  {
  }

  /** Right cancellations of two-letter gates without a Pauli: RIGHT(a, b) == c. */
  lemma RightInversesOfMixedPairs(l: Lane)
    ensures Right(H, SH, l) == Rule(S, l) && Right(H, RH, l) == Rule(R, l)
    ensures Right(R, HS, l) == Rule(H, l) && Right(S, HR, l) == Rule(H, l)
  {
  }

  /** Right cancellations of three-letter gates ending in a Pauli: RIGHT(a, b) == c. */
  lemma RightInversesOfTriples(l: Lane)
    ensures Right(X, HSX, l) == Rule(HS, l) && Right(X, HRX, l) == Rule(HR, l)
    ensures Right(Y, SHY, l) == Rule(SH, l) && Right(Y, RHY, l) == Rule(RH, l)
  {
  }

  /** Right cancellations of three-letter gates without a Pauli: RIGHT(a, b) == c. */
  lemma RightInversesOfSandwiches(l: Lane)
    ensures Right(H, HSH, l) == Rule(HS, l) && Right(H, HRH, l) == Rule(HR, l)
    ensures Right(R, RHS, l) == Rule(RH, l) && Right(S, SHR, l) == Rule(SH, l)
  {
  }

  /** Composition is not commutative: S after H differs from H after S. */
  lemma NotCommutative()
    ensures Left(S, H, Lane(true, false, false)) != Left(H, S, Lane(true, false, false))
  {
  }

  /** The two two-qubit gates of the kernels. */
  datatype TwoQubitGate = CNOT | CZ

  /** One bit position of one row, seen by a two-qubit gate on (ctrl, targ). */
  datatype PairLane = PairLane(xc: bool, zc: bool, xt: bool, zt: bool, r: bool)

  /** The per-lane rule of `tableau_CNOT` and `tableau_CZ`. */
  function PairRule(g: TwoQubitGate, p: PairLane): PairLane
  {
    match g
    case CNOT =>
      PairLane(p.xc, p.zc != p.zt, p.xt != p.xc, p.zt, p.r != (p.xc && p.zt && !(p.xt != p.zc)))
    case CZ =>
      PairLane(p.xc, p.zc != p.xt, p.xt, p.zt != p.xc, p.r != ((p.xc && p.xt && p.zc) != (p.xc && p.xt && p.zt)))
  }

  /** The per-lane rule of the AVX CZ kernel, with its own phase expression. */
  function PairRuleAvxCz(p: PairLane): PairLane
  {
    var a := p.xt && p.zt;
    var b := p.xc && p.xt && !(p.zt != p.zc);
    var d := (p.zt != p.xc) && p.xt;
    PairLane(p.xc, p.zc != p.xt, p.xt, p.zt != p.xc, ((p.r != a) != b) != d)
  }

  /** A single-qubit gate on the target half of a pair lane. */
  function OnTarget(g: Clifford, p: PairLane): PairLane
  {
    var t := Rule(g, Lane(p.xt, p.zt, p.r));
    PairLane(p.xc, p.zc, t.x, t.z, t.r)
  }

  /** CNOT and CZ are involutions. */
  lemma PairInvolutions(p: PairLane)
    ensures PairRule(CNOT, PairRule(CNOT, p)) == p
    ensures PairRule(CZ, PairRule(CZ, p)) == p
  {
  }

  /** CZ is CNOT conjugated by H on the target, as the CZ kernel's derivation says. */
  lemma CzIsConjugatedCnot(p: PairLane)
    ensures PairRule(CZ, p) == OnTarget(H, PairRule(CNOT, OnTarget(H, p)))
  {
  }

  /** The AVX CZ kernel computes the same lane as the scalar one. */
  lemma AvxCzAgrees(p: PairLane)
    ensures PairRuleAvxCz(p) == PairRule(CZ, p)
  {
  }

  /** CZ is symmetric in its two qubits. */
  lemma CzSymmetric(p: PairLane)
    ensures var q := PairRule(CZ, PairLane(p.xt, p.zt, p.xc, p.zc, p.r));
      PairRule(CZ, p) == PairLane(q.xt, q.zt, q.xc, q.zc, q.r)
  {
  }
}
