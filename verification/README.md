# Stabilizer-tableau core of cabaliser, in Dafny

cabaliser compiles Clifford+Rz circuits into measurement-based
"widgets". Its C core is a stabilizer tableau, and this project models
that tableau and the code around it:

- **Storage.** Each qubit has one X slice and one Z slice, which are
  rows of packed 64-bit words reached through tables of row pointers.
  All qubits share one phase slice.
- **Kernels.** There are 24 single-qubit Clifford kernels, plus CNOT
  and CZ, which come in a scalar and an AVX version. Each kernel
  rewrites words of its qubits' slices in a loop and xors into the
  phases. Eight kernels (H, HX, HZ, HY, HSX, HRX, SHY and RHY) then
  exchange the X and Z row pointers of their target instead of writing
  the exchanged words back. The model runs every kernel over the first
  `slice_len` words. The AVX CZ and the AVX SH, RH, HS and HR kernels
  as coded use other loop bounds, and HY as coded uses another phase
  update; see "## Findings".
- **Tableau utilities.** These are bit get/set, trailing-zero search,
  row exchange, transverse Hadamard, row xor and the naive transpose.
- **Gaussian-elimination helpers.** These are the pivot search
  `tableau_X_diag_element` with its three strategies, the column
  eliminations above and below the diagonal, the diagonalisation loop
  and the removal of empty X columns. The local Cliffords they produce
  are recorded in the Clifford queue.
- **Widget dispatch.** This is `input_stream.c`:
  - local gates are queued through the `LOCAL_CLIFFORD_LEFT` table;
  - two-qubit gates first drain the queue of both operands;
  - a teleported Rz moves its operand onto a fresh qubit;
  - conditional Paulis are handled;
  - `parse_instruction_block` dispatches a block of instructions;
  - `teleport_input` sets up the Bell pairs for the inputs.
- **Composition rules.** These are what the tests in
  `test_clifford_table.c` check.

A word is `seq<bool>` of length 64. Module by module:

- `Bits`: word and slice bit operations and the slice-length macros.
- `Cliffords`: the 24 gates as per-lane rules, where a lane is one bit
  position of X, Z and the phase. It also holds the composition laws
  and the two-qubit lane rules.
- `Tableaux`: the `Tableau` class. Its fields `slicesX` and `slicesZ`
  are arrays of row contents, and `phases` is an array of words. It
  also holds the tableau utilities and their specification functions.
- `Kernels`: the kernel methods. Each is proved equal to a function on
  the tableau's value (`Local`, `Two` and `CzAvxState`). Properties of
  those functions are proved lane by lane.
- `Elimination`: the pivot search, the column eliminations, the
  diagonalisation and the removal of empty X columns. These are
  methods on a `Tableau` and a `CliffordQueue`.
- `CliffordQueues`: the queued local Clifford and the non-Clifford tag
  of every qubit.
- `InputStream`: the `Widget` class and its value view `WState`, with
  one specification function per instruction kind.

## Model

| member | source | states |
|---|---|---|
| Bits.SliceGetBit | c_lib/lib/tableau.h:144-151 | the result is 0 or 1, and it is 1 exactly when bit `index` of the slice is set |
| Bits.WordWithBit | c_lib/lib/tableau.h:119-120 | after clearing and then or-ing, bit `o` of the word holds the low bit of `value`; every other bit keeps its value |
| Bits.WithBit | c_lib/lib/tableau.h:113-123 | the slice keeps its length; only the word holding `index` can change |
| Bits.GetAfterSet | c_lib/lib/tableau.h:113-151 | reading back a bit just set gives the low bit of the value written |
| Bits.SetKeepsOtherBits | c_lib/lib/tableau.h:113-123 | setting one bit leaves every other bit of the slice unchanged |
| Bits.BitsOfWithBit | c_lib/lib/tableau.h:113-123 | the whole bit view after a set: bit `index` is the written value, and every other bit is unchanged |
| Bits.SliceExt | c_lib/lib/tableau.h:144-151 | two slices of equal length with the same bits are equal |
| Bits.SliceSetBit | c_lib/src/tableau.c:15-22 | the slice in place becomes the slice with that bit set to the low bit of `value`, and nothing else changes |
| Bits.AtomicAndFetch | c_lib/lib/tableau.h:130 | the word becomes its and with the mask; the returned value is the new word |
| Bits.AtomicOrFetch | c_lib/lib/tableau.h:131 | the word becomes its or with the mask; the returned value is the new word |
| Bits.AtomicSliceSetBit | c_lib/lib/tableau.h:124-134 | the two atomic halves together have the effect of the plain set-bit |
| Bits.LowestSetFrom | c_lib/src/tableau.c:406 | the index is a set bit at or above `from`, and no bit between `from` and it is set |
| Bits.ChunkCtz | c_lib/src/tableau.c:406 | the trailing-zero count of a non-zero word is its lowest set bit |
| Bits.SliceLenBytesSound | c_lib/lib/tableau.h:24-29 | SLICE_LEN_BYTES is a whole number of strides and covers all n bits; SLICE_LEN is the ceiling of n / (8 s) |
| Bits.BitInSliceLen | c_lib/lib/tableau.h:29 | every bit below n lies within the first SLICE_LEN_SIZE_T(n) words |
| Tableaux.CreateSliceLenSound | c_lib/src/tableau.c:45-103 | the slice length computed by tableau_create equals SLICE_LEN_SIZE_T, fits in the cache-line-padded row and covers all n bits |
| Tableaux.SliceLenFits | c_lib/src/tableau.c:113-117 | shrinking the qubit count never needs more words than the allocated rows hold |
| Tableaux.Ctz | c_lib/src/tableau.c:392-410 | returns CTZ_SENTINEL exactly when the first slice_len words are empty; otherwise returns the first set bit, which is in range |
| Tableaux.SliceEmpty | c_lib/src/tableau.c:350-359 | true exactly when no bit of the first slice_len words is set |
| Tableaux.TransverseHBits | c_lib/src/tableau.c:147-168 | in the first n rows, the X and Z bits of column t trade places; no other bit changes |
| Tableaux.TransverseHInvolution | c_lib/src/tableau.c:147-168 | applying the transverse Hadamard twice restores the tableau |
| Tableaux.TransposedBit | c_lib/src/tableau.c:286-311 | bit q of transposed row p is bit p of row q inside the n-by-n block; outside it the bit is unchanged |
| Tableaux.TransposedInvolution | c_lib/src/tableau.c:222-311 | transposing twice restores the rows |
| Tableaux.SwapBitPair | c_lib/src/tableau.c:298-302 | one inner step of the naive transpose on a pointer table: bit j of row i and bit i of row j are exchanged |
| Tableaux.SwapBitsStep | c_lib/src/tableau.c:294-307 | step (i, j) extends the set of exchanged pairs by exactly (i, j) |
| Tableaux.SwappedNextRow | c_lib/src/tableau.c:289-308 | finishing row i of the loop is the start of row i + 1 |
| Tableaux.SwappedAllIsTransposed | c_lib/src/tableau.c:286-311 | once every pair is exchanged, the rows are the transpose |
| Tableaux.SwapPhaseBitsBits | c_lib/src/tableau.c:444-460 | exchanging phase bits i and j swaps exactly those two bits |
| Tableaux.SwapPhaseBitsInvolution | c_lib/src/tableau.c:444-460 | exchanging the same phase bits twice restores the phases |
| Tableaux.SwapTransverseInvolution | c_lib/src/tableau.c:444-460 | exchanging rows i and j with their phase bits twice restores the whole tableau |
| Tableaux.SwapTransverseSame | c_lib/src/tableau.c:444-460 | exchanging row i with itself leaves the tableau, phases included, unchanged |
| Tableaux.XorRowTwice | c_lib/src/tableau.c:462-496 | for distinct rows, xoring row c into row t twice restores row t |
| Tableaux.ZeroRows | c_lib/src/tableau.c:45-103 | n fresh X rows, each with no bit set |
| Tableaux.IdentityRows | c_lib/src/tableau.c:91-101 | bit k of Z row j is set exactly when k == j |
| Tableaux.TransverseHInPlace | c_lib/src/tableau.c:158-165 | the pointer tables end as the transverse Hadamard of their starting contents |
| Tableaux.XorRowInPlace | c_lib/src/tableau.c:462-496 | the rows end with row t xored with row c over the first n words, and every other row unchanged |
| Tableaux.Tableau.constructor | c_lib/src/tableau.c:45-103 | tableau_create: n qubits, empty X rows and phases, Z rows forming the identity, column-major, and a slice length that agrees with SLICE_LEN_SIZE_T |
| Tableaux.Tableau.SetNQubits | c_lib/src/tableau.c:113-117 | the qubit count changes, the slice length is recomputed, and the tableau stays valid |
| Tableaux.Tableau.TransposeStep | c_lib/src/tableau.c:296-306 | one pair exchanged in X and in Z; the transpose invariant advances by one step |
| Tableaux.Tableau.TransposeRowNaive | c_lib/src/tableau.c:294-307 | the inner loop for row i completes row i of the transpose invariant |
| Tableaux.Tableau.TransposeNaive | c_lib/src/tableau.c:286-311 | the X rows and the Z rows become their n-by-n transposes; the phases are unchanged |
| Tableaux.Tableau.TransposedAll | c_lib/src/tableau.c:286-311 | after every pair is exchanged, both pointer tables hold the transposed rows |
| Tableaux.Tableau.Transpose | c_lib/src/tableau.c:222-233 | the X and Z rows become their transposes; the phases are unchanged |
| Tableaux.Tableau.SliceEmptyX | c_lib/src/tableau.c:367-372 | true exactly when X row idx is empty on the processed words |
| Tableaux.Tableau.SliceEmptyZ | c_lib/src/tableau.c:381-384 | true exactly when Z row idx is empty on the processed words |
| Tableaux.Tableau.TransverseHadamard | c_lib/src/tableau.c:147-168 | the tableau becomes its transverse Hadamard on column targ (see TransverseHBits and TransverseHInvolution) |
| Tableaux.Tableau.IdxSwap | c_lib/src/tableau.c:421-432 | X rows i and j trade places, and so do Z rows i and j; the phases are unchanged |
| Tableaux.Tableau.IdxSwapTransverse | c_lib/src/tableau.c:444-460 | the new state is SwapTransverse of the old: the rows are exchanged, and phase bits i and j are exchanged too |
| Tableaux.Tableau.SliceXor | c_lib/src/tableau.c:462-496 | X row targ ^= X row ctrl and Z row targ ^= Z row ctrl on the processed words; every other row is unchanged (see XorRowTwice) |
| Cliffords.GeneratorRelations | c_lib/src/simd/simd_tableau_operations.c:199-323 | the kernels' derivations hold lane by lane: Z = S S, R = S S S, X = H Z H and Y = X Z; H is an involution; S and R are mutual inverses |
| Cliffords.NamedProduct | c_lib/src/simd/simd_tableau_operations.c:325-809 | every one of the 24 kernels equals the product of the gates its name spells |
| Cliffords.HYAsWrittenIsNotHAfterY | c_lib/src/simd/simd_tableau_operations.c:446-475 | as coded, HY leaves the phase clear on a lane with both X and Z set, where H after Y sets it |
| Cliffords.HYAsWrittenBreaksInverse | c_lib/tests/src/test_clifford_table.c:50 | as coded, H after HY is not Y on that lane |
| Cliffords.IdentityNeutral | c_lib/tests/src/test_clifford_table.c:26-35 | I is neutral on both sides of both compositions |
| Cliffords.CompositionTable | c_lib/tests/src/test_clifford_table.c:15-22 | the tested composition entries, including X Z = Y and S HR = SHR |
| Cliffords.NotCommutative | c_lib/tests/src/test_clifford_table.c:12-24 | S after H differs from H after S on some lane |
| Cliffords.LeftInversesOfGenerators | c_lib/tests/src/test_clifford_table.c:40-46 | LEFT(a, b) is the identity for the Paulis, H, and the pairs S/R |
| Cliffords.LeftInversesOfPairs | c_lib/tests/src/test_clifford_table.c:47-51 | LEFT(H, HX) = X, LEFT(R, SX) = X, LEFT(S, RX) = X, LEFT(H, HY) = Y, LEFT(H, HZ) = Z |
| Cliffords.LeftInversesOfMixedPairs | c_lib/tests/src/test_clifford_table.c:52-55 | LEFT(R, SH) = H, LEFT(S, RH) = H, LEFT(H, HS) = S, LEFT(H, HR) = R |
| Cliffords.LeftInversesOfTriples | c_lib/tests/src/test_clifford_table.c:56-59 | LEFT(H, HSX) = SX, LEFT(H, HRX) = RX, LEFT(R, SHY) = HY, LEFT(S, RHY) = HY |
| Cliffords.LeftInversesOfSandwiches | c_lib/tests/src/test_clifford_table.c:60-63 | LEFT(H, HSH) = SH, LEFT(H, HRH) = RH, LEFT(S, RHS) = HS, LEFT(R, SHR) = HR |
| Cliffords.RightInversesOfGenerators | c_lib/tests/src/test_clifford_table.c:69-75 | RIGHT(a, b) is the identity for the Paulis, H, and the pairs S/R |
| Cliffords.RightInversesOfPairs | c_lib/tests/src/test_clifford_table.c:76-80 | RIGHT(X, HX) = H, RIGHT(X, SX) = S, RIGHT(X, RX) = R, RIGHT(Y, HY) = H, RIGHT(Z, HZ) = H |
| Cliffords.RightInversesOfMixedPairs | c_lib/tests/src/test_clifford_table.c:81-84 | RIGHT(H, SH) = S, RIGHT(H, RH) = R, RIGHT(R, HS) = H, RIGHT(S, HR) = H |
| Cliffords.RightInversesOfTriples | c_lib/tests/src/test_clifford_table.c:85-88 | RIGHT(X, HSX) = HS, RIGHT(X, HRX) = HR, RIGHT(Y, SHY) = SH, RIGHT(Y, RHY) = RH |
| Cliffords.RightInversesOfSandwiches | c_lib/tests/src/test_clifford_table.c:89-92 | RIGHT(H, HSH) = HS, RIGHT(H, HRH) = HR, RIGHT(R, RHS) = RH, RIGHT(S, SHR) = SH |
| Cliffords.PairInvolutions | c_lib/src/simd/simd_tableau_operations.c:811-902 | CNOT and CZ each undo themselves on a lane |
| Cliffords.CzIsConjugatedCnot | c_lib/src/simd/simd_tableau_operations.c:846-880 | CZ is H on the target, then CNOT, then H on the target, as the CZ kernel's derivation says |
| Cliffords.AvxCzAgrees | c_lib/src/simd/tableau_operations_simd.c:4-88 | the AVX CZ phase expression gives the scalar CZ lane |
| Cliffords.CzSymmetric | c_lib/src/simd/simd_tableau_operations.c:844-902 | CZ is symmetric in its two qubits |
| Kernels.UpdateColumnLane | c_lib/src/simd/simd_tableau_operations.c:153-809 | inside the processed words, every bit of the target obeys the gate's update; beyond them nothing changes |
| Kernels.UpdateColumnStep | c_lib/src/simd/simd_tableau_operations.c:153-809 | processing one more word changes exactly that word of X, Z and the phases |
| Kernels.LocalLane | c_lib/src/simd/simd_tableau_operations.c:153-809 | each lane of the target follows the gate's full rule inside the processed words; beyond them it is only exchanged by the pointer swap, or left alone |
| Kernels.StatesEqualByLanes | c_lib/src/simd/simd_tableau_operations.c:153-809 | two states that agree on every other row and on every lane of the target are equal |
| Kernels.LocalCompose | c_lib/src/simd/simd_tableau_operations.c:325-809 | running b's kernel and then a's equals running c's kernel whenever c's rule is a after b and the pointer swaps agree in parity |
| Kernels.LocalIdentity | c_lib/src/simd/simd_tableau_operations.c:258-261 | tableau_I changes nothing |
| Kernels.LocalInverses | c_lib/src/simd/simd_tableau_operations.c:153-323 | H, X, Y and Z undo themselves on the whole tableau; S and R undo each other |
| Kernels.LocalDerivations | c_lib/src/simd/simd_tableau_operations.c:199-323 | on the whole tableau, the Z kernel is S twice, X is H Z H, and Y is Z followed by X |
| Kernels.PaulisKeepSlices | c_lib/src/simd/simd_tableau_operations.c:199-323 | the Pauli kernels change only the phases |
| Kernels.LocalStep | c_lib/src/simd/simd_tableau_operations.c:153-809 | one loop pass extends the processed prefix of the target column by word i; no other row changes |
| Kernels.LocalLoop | c_lib/src/simd/simd_tableau_operations.c:153-809 | the loop leaves the target's slices and the phases updated over the processed words; every other row is unchanged |
| Kernels.ExchangeRows | c_lib/src/simd/simd_tableau_operations.c:169-171 | the target's X and Z row pointers trade places; nothing else changes |
| Kernels.ApplyLocal | c_lib/src/simd/simd_tableau_operations.c:153-809 | every single-qubit kernel leaves the tableau equal to Local of its gate (see LocalLane, LocalCompose, LocalInverses); this is the corrected kernel, looping over `slice_len` words with HY's phase as derived, see "## Findings" |
| Kernels.XorWordsBit | c_lib/src/tableau.c:462-496 | below the processed words, bit k of an xored slice is the sum of the two bits; above them it is unchanged |
| Kernels.CzAvxPhaseAgrees | c_lib/src/simd/tableau_operations_simd.c:65-75 | the AVX chain of and, andnot and xor equals the scalar CZ phase update, word for word |
| Kernels.TwoLane | c_lib/src/simd/simd_tableau_operations.c:811-902 | for distinct qubits, every processed bit position of the pair obeys the gate's lane rule, and every other position is left alone |
| Kernels.StatesEqualByPairLanes | c_lib/src/simd/simd_tableau_operations.c:811-902 | two states that agree on every other row and on every lane of the pair are equal |
| Kernels.TwoInvolution | c_lib/src/simd/simd_tableau_operations.c:811-902 | CNOT and CZ kernels on distinct qubits undo themselves on the whole tableau |
| Kernels.CzIsHCnotH | c_lib/src/simd/simd_tableau_operations.c:846-880 | on the whole tableau, the CZ kernel is H on the target, then the CNOT kernel, then H on the target |
| Kernels.HadamardPairLane | c_lib/src/simd/simd_tableau_operations.c:153-172 | the H kernel, seen on a pair lane, is H on the target half where processed and the swap elsewhere |
| Kernels.TwoStepExtends | c_lib/src/simd/simd_tableau_operations.c:811-902 | one pass of the two-qubit loop body extends the processed prefix by one word |
| Kernels.TwoNothingYet | c_lib/src/simd/simd_tableau_operations.c:811-902 | with no word processed, nothing has changed |
| Kernels.TwoWord | c_lib/src/simd/simd_tableau_operations.c:811-902 | one pass of the loop, in statement order |
| Kernels.ApplyTwo | c_lib/src/simd/simd_tableau_operations.c:811-902 | tableau_CNOT and the scalar tableau_CZ leave the tableau equal to Two of their gate (see TwoLane and TwoInvolution) |
| Kernels.CzAvxMatchesScalar | c_lib/src/simd/tableau_operations_simd.c:4-88 | on distinct qubits, the AVX CZ is exactly the scalar CZ |
| Kernels.CzKernelsOnOneQubit | c_lib/src/simd/tableau_operations_simd.c:4-88 | with the control equal to the target, the scalar CZ changes nothing, while the AVX CZ xors the X slice into the Z slice |
| Kernels.CzAvxStepExtends | c_lib/src/simd/tableau_operations_simd.c:4-88 | one AVX pass (load, compute, store) extends the processed prefix by one word |
| Kernels.CzAvxNothingYet | c_lib/src/simd/tableau_operations_simd.c:4-88 | with no word processed, nothing has changed |
| Kernels.CzAvxWord | c_lib/src/simd/tableau_operations_simd.c:4-88 | one pass of the AVX loop |
| Kernels.CzAvx | c_lib/src/simd/tableau_operations_simd.c:4-88 | the AVX CZ leaves the tableau equal to CzAvxState, and equal to the scalar CZ when the control differs from the target; this is the corrected loop over `slice_len` words, see "## Findings" |
| Kernels.AvxCzLoopOverruns | c_lib/src/simd/tableau_operations_simd.c:4-88 | as written, for every tableau of more than 64 qubits, the loop moves more words of each slice than the rows hold (16 against 8 at 100 qubits) |
| Kernels.AvxLocalLoopSkipsSmallTableaux | c_lib/src/simd/simd_tableau_operations.c:478-510 | as written, below 8 qubits tableau_SH leaves a stabiliser's X in place, where SH moves it |
| Kernels.LocalIdentityOnNoWords | c_lib/src/simd/simd_tableau_operations.c:153-809 | a kernel that processes no word and swaps no pointers changes nothing |
| CliffordQueues.CliffordQueue.LocalCliffordRight | c_lib/src/simd/simd_tableau_operations.c:70 | the entry of qubit q becomes RIGHT(g, entry); under the RIGHT table law, its rule is g first, then the old entry |
| Elimination.FirstRowWith | c_lib/src/simd/simd_tableau_operations.c:55-64 | the first row at or after `from` with the bit set; None exactly when there is no such row below n |
| Elimination.DiagElementSpec | c_lib/src/simd/simd_tableau_operations.c:52-91 | the three strategies of the pivot search as a value |
| Elimination.DiagElementThirdStrategy | c_lib/src/simd/simd_tableau_operations.c:74-88 | when strategies 1 and 2 do not apply, strategy 3 swaps in the first later row with Z set and applies the transverse Hadamard |
| Elimination.DiagElementPivot | c_lib/src/simd/simd_tableau_operations.c:52-91 | X[idx][idx] is set afterwards exactly when some row from idx on has an X or a Z on qubit idx; otherwise nothing changed |
| Elimination.SwapKeepsDiagonal | c_lib/src/tableau.c:444-460 | exchanging rows at or after i keeps the diagonal below i |
| Elimination.TransverseHKeepsDiagonal | c_lib/src/tableau.c:147-168 | a transverse Hadamard on a column at or after i keeps the diagonal below i |
| Elimination.DiagElementKeepsDiagonal | c_lib/src/simd/simd_tableau_operations.c:52-91 | the pivot search on qubit idx >= i keeps the diagonal below i |
| Elimination.DiagElementExtendsDiagonal | c_lib/src/simd/simd_tableau_operations.c:52-91 | the pivot search on qubit i extends the diagonal to i + 1 |
| Elimination.EliminationClearsColumn | c_lib/src/simd/simd_tableau_operations.c:93-130 | with a pivot, every row in the range other than idx ends with no X on qubit idx; the pivot row and the phases are unchanged |
| Elimination.EliminatedNone | c_lib/src/simd/simd_tableau_operations.c:93-130 | eliminating over an empty range changes nothing |
| Elimination.EliminatedStep | c_lib/src/simd/simd_tableau_operations.c:98-106 | one more row is tableau_slice_xor(idx, j) when X[j][idx] is set, and nothing otherwise |
| Elimination.EliminateRow | c_lib/src/simd/simd_tableau_operations.c:98-106 | one loop pass extends the eliminated range by row j |
| Elimination.EliminateRange | c_lib/src/simd/simd_tableau_operations.c:93-130 | the rows lo to hi - 1 are eliminated in order |
| Elimination.ColUpper | c_lib/src/simd/simd_tableau_operations.c:93-109 | rows below the pivot are eliminated; with a pivot, none of them keeps an X on qubit idx |
| Elimination.ColLower | c_lib/src/simd/simd_tableau_operations.c:112-130 | rows above the pivot are eliminated; with a pivot, none of them keeps an X on qubit idx |
| Elimination.FindRowWith | c_lib/src/simd/simd_tableau_operations.c:55-64 | the loop search returns the first row with the bit set (FirstRowWith) |
| Elimination.DiagElement | c_lib/src/simd/simd_tableau_operations.c:52-91 | the tableau becomes DiagElementSpec's state; H is queued on qubit idx exactly when strategy 2 or 3 ran |
| Elimination.DiagElementByZ | c_lib/src/simd/simd_tableau_operations.c:66-88 | strategies 2 and 3, once strategy 1 has found nothing |
| Elimination.DiagElementSwapZ | c_lib/src/simd/simd_tableau_operations.c:74-88 | strategy 3, and the no-pivot case |
| Elimination.SwapInAndFlip | c_lib/src/simd/simd_tableau_operations.c:80-86 | swap, transverse Hadamard, and H queued on idx |
| Elimination.Diagonalised | c_lib/src/simd/simd_tableau_operations.c:137-150 | the qubits queued for H are among those processed |
| Elimination.DiagonalisedReady | c_lib/src/simd/simd_tableau_operations.c:137-150 | after processing i qubits, the X diagonal below i is set wherever a pivot existed |
| Elimination.XDiagonalStep | c_lib/src/simd/simd_tableau_operations.c:141-148 | one loop pass advances the diagonalisation by qubit i |
| Elimination.XDiagonalLoop | c_lib/src/simd/simd_tableau_operations.c:141-148 | the loop over every qubit yields Diagonalised of the transposed tableau |
| Elimination.XDiagonal | c_lib/src/simd/simd_tableau_operations.c:137-150 | after the transpose and the loop, the tableau is Diagonalised and its X diagonal is ready; H is queued exactly on the flipped qubits |
| Elimination.LocalHOnEmptyX | c_lib/src/simd/simd_tableau_operations.c:12-25 | on a qubit with an empty X slice, the H kernel exchanges its two slices and keeps the phases |
| Elimination.ZeroXColumnsRemoved | c_lib/src/simd/simd_tableau_operations.c:12-25 | a qubit processed with an empty X row had both rows empty before; every other qubit is unchanged |
| Elimination.ZeroXColumnsStep | c_lib/src/simd/simd_tableau_operations.c:16-23 | one more qubit is an H on it exactly when its X slice is empty |
| Elimination.RemoveZeroXColumns | c_lib/src/simd/simd_tableau_operations.c:12-25 | H is applied, and queued, on exactly the qubits whose X slice was empty |
| InputStream.DrainSpec | c_lib/src/input_stream.c:58-62 | draining a qubit resets its queue entry to I and changes nothing but the tableau |
| InputStream.LocalGateSpec | c_lib/src/input_stream.c:11-22 | a local gate changes only the operand's queue entry and the tracker log; the tableau is untouched |
| InputStream.ComposedKernelLane | c_lib/src/input_stream.c:17 | applying LEFT(op, e) to a qubit agrees, lane by lane, with applying e and then op |
| InputStream.DeferredLocalAgrees | c_lib/src/input_stream.c:11-37 | queueing a gate and then draining it gives the same tableau as draining and then applying the gate directly |
| InputStream.DrainAll | c_lib/src/input_stream.c:30-37 | after draining qubits 0 to i - 1, their entries are I and every other entry is unchanged |
| InputStream.DrainAllUnfold | c_lib/src/input_stream.c:32-36 | the loop's next pass drains qubit i |
| InputStream.NonLocalSpec | c_lib/src/input_stream.c:47-69 | both operands' queues are drained, and the non-local call is logged |
| InputStream.RzSpec | c_lib/src/input_stream.c:79-109 | None exactly when the widget is full; otherwise the operand is tagged and remapped to a fresh qubit, both queues are drained, the Z correction is logged, and one qubit is added |
| InputStream.RzKeepsMapLive | c_lib/src/input_stream.c:86-100 | every logical qubit stays on a live physical qubit, and the CNOT joins two distinct qubits |
| InputStream.ConditionalSpec | c_lib/src/input_stream.c:129-144 | only the control's tag (bare measurement) and the log change |
| InputStream.Step | c_lib/src/input_stream.c:148-157 | the dispatched instruction keeps the widget fitted and every logical qubit live; only an Rz adds a qubit; it fails exactly when an Rz finds the widget full |
| InputStream.Run | c_lib/src/input_stream.c:167-180 | the live qubit count only grows, every logical qubit stays live, and an incomplete run leaves the widget full |
| InputStream.TeleportStep | c_lib/src/input_stream.c:200-214 | one pass moves input qubit c up by nInit and logs an X correction on the pair; the queue and tags are unchanged |
| InputStream.TeleportPairs | c_lib/src/input_stream.c:200-214 | the closed form of the first i passes keeps the queue, the tags and the qubit count |
| InputStream.MovedUpStep | c_lib/src/input_stream.c:209 | one more pass is one more map update |
| InputStream.TeleportLogStep | c_lib/src/input_stream.c:213 | one more pass appends one X correction |
| InputStream.TeleportPairsUnfold | c_lib/src/input_stream.c:200-214 | the closed form after i + 1 passes is pass i run on the closed form after i passes |
| InputStream.TeleportPairIsHadamardCnot | c_lib/lib/input_stream.h:40 | on distinct qubits, H, H and CZ equal H on the input, CNOT, then H on the partner |
| InputStream.Widget.Drain | c_lib/src/input_stream.c:58-62 | the widget becomes DrainSpec of its old state |
| InputStream.Widget.LocalGate | c_lib/src/input_stream.c:11-22 | the widget becomes LocalGateSpec of its old state |
| InputStream.Widget.ApplyLocalCliffords | c_lib/src/input_stream.c:30-37 | every live qubit is drained in order (DrainAll) |
| InputStream.Widget.DrainNext | c_lib/src/input_stream.c:32-36 | one pass of the loop advances DrainAll by one |
| InputStream.Widget.NonLocalGate | c_lib/src/input_stream.c:47-69 | the widget becomes NonLocalSpec of its old state |
| InputStream.Widget.RzGate | c_lib/src/input_stream.c:79-109 | success exactly when a free qubit exists, and then the widget becomes RzSpec's state; otherwise it is unchanged |
| InputStream.Widget.RzTeleport | c_lib/src/input_stream.c:88-106 | with a free qubit, the widget becomes RzSpec's state |
| InputStream.Widget.TagAndRemap | c_lib/src/input_stream.c:88-92 | the operand's qubit is tagged and the operand maps to the next free qubit |
| InputStream.Widget.CnotOntoNewQubit | c_lib/src/input_stream.c:100-106 | CNOT onto the new qubit, the Z correction logged, and the qubit counted live |
| InputStream.Widget.Conditional | c_lib/src/input_stream.c:129-144 | the widget becomes ConditionalSpec of its old state |
| InputStream.Widget.Dispatch | c_lib/src/input_stream.c:148-157 | the widget becomes Step's state; it fails, leaving the widget unchanged, exactly when Step does |
| InputStream.Widget.ParseInstructionBlock | c_lib/src/input_stream.c:167-180 | the widget becomes Run's state, and the result says whether every instruction was dispatched |
| InputStream.Widget.TeleportInput | c_lib/src/input_stream.c:191-217 | success exactly when the pairs fit in the widget, and then the widget becomes TeleportPairs with the qubit count raised by nIn; otherwise it is unchanged |
| InputStream.Widget.TeleportPairsLoop | c_lib/src/input_stream.c:200-214 | the loop yields the closed form TeleportPairs |
| InputStream.Widget.TeleportNext | c_lib/src/input_stream.c:200-214 | one pass advances the closed form by one |
| InputStream.Widget.TeleportPair | c_lib/src/input_stream.c:202-213 | one pass is TeleportStep |
| InputStream.Widget.PairGatesOn | c_lib/src/input_stream.c:202-206 | H on both qubits, then CZ between them |
| InputStream.Widget.HadamardOn | c_lib/src/input_stream.c:202 | tableau_H on one physical qubit |
| InputStream.Widget.CzOn | c_lib/src/input_stream.c:206 | tableau_CZ on two physical qubits |
| InputStream.Widget.MoveOntoPartner | c_lib/src/input_stream.c:209-213 | the map update and the X correction of one pass |

## Left out

- `tableau_transpose_slices`, the blocked 64-by-64 transpose used from 64 qubits on, is modelled by the naive transpose it is meant to agree with. Its block shuffles are not modelled.
- `tableau_col_elim_X` (c_lib/src/tableau.c:170-215) is not modelled. It is a per-bit variant of the column elimination, and no modelled routine calls it.
- `tableau_Z_zero_diagonal` is not modelled. Its own comment marks it unused. Its call into the Clifford queue passes the qubit and the gate in the opposite order from every other call, and the queue's code is not part of this model.
- OpenMP parallel loops, atomic fetch-xor on the phases and AVX intrinsics are modelled as the equivalent sequential word loops. No concurrency is modelled.
- The composition tables `LOCAL_CLIFFORD_LEFT` and `LOCAL_CLIFFORD_RIGHT` are generated code that is not part of this model. They appear as function-valued fields of the queue, with the laws they should obey (LeftTableLaw and RightTableLaw) stated as predicates.
- CliffordQueues.CliffordQueue.LocalCliffordRight: the order of RIGHT's arguments (gate, then entry) is taken from the callers, because `clifford_queue_local_clifford_right` is not part of this model. Its composition law holds only under RightTableLaw.
- The Pauli tracker (a Rust library) and the `conditional_I`/`x`/`y`/`z` routines are foreign calls. Each call is appended to the widget's `log`.
- WMAP_LOOKUP is modelled as a lookup in `qMap`.
- `widget_create` and `clifford_queue_create` are not part of this model. The widget and queue constructors only assemble their parts.
- Printing, memory allocation failures and freeing are left out.
- The `assert` in `__inline_rz_gate` and `teleport_input` is modelled as an error result (`ok == false`, with nothing changed), not as an abort.
- InputStream.Widget.TeleportInput: requires that no qubit has been added since the widget was created (`nQubits == nInitialQubits`), as the header's "called before any gates" demands. The C code does not check this.
- InputStream.Widget.Dispatch: requires every logical operand to map to a live physical qubit (MapLive), and requires instruction types whose dispatch entry is not NULL. The C code dereferences the NULL entries and reads the map unchecked.
- InputStream.DeferredLocalAgrees: equality is stated on the processed bit positions of the drained qubit and on all other rows. Beyond the processed words, the two orders of pointer swaps can differ in padding bits that no kernel reads.
- Kernels.ApplyLocal: runs every single-qubit kernel over the first `slice_len` words and gives HY the phase update `r ^= x | z`. As coded, the AVX SH, RH, HS and HR loops stop below `n_qubits / 8` bytes, and HY xors `x ^ z` into the phase. Both differences are recorded under "## Findings", and the as-written behaviour is modelled by AvxLocalLoopSkipsSmallTableaux and HYAsWrittenIsNotHAfterY.
- Kernels.CzAvx: loops over the first `slice_len` words. As coded, the AVX CZ loop runs a byte offset up to `n_qubits`, which is recorded under "## Findings" and modelled by AvxCzLoopOverruns.
- Kernels.CzAvxMatchesScalar: holds only for distinct control and target. CzKernelsOnOneQubit states how the two kernels differ otherwise.
- Integer widths: qubit indices and counts are unbounded `nat`, with CTZ_SENTINEL bounding the bit indices. The 8-bit `value` of set-bit is not truncated beyond its low bit, which is the only bit used.

## Findings

| source | as written | input that shows it | evidently intended | confidence | as-written member | corrected member |
|---|---|---|---|---|---|---|
| c_lib/src/simd/simd_tableau_operations.c:446-475 | `tableau_HY` xors `x ^ z` into the phase | a stabiliser with X and Z both set on the target and phase 0: HY as written keeps phase 0, while H after Y gives 1 | phase ^= x \| z, as the kernel's own derivation concludes | high; not executed | Cliffords.HYAsWrittenIsNotHAfterY | Cliffords.NamedProduct |
| c_lib/src/simd/tableau_operations_simd.c:4-88 | the AVX CZ loop runs a byte offset up to `n_qubits` in 32-byte steps | any n > 64 qubits, for example 100: 16 words of each slice moved, but each row holds 8 words | loop over `slice_len` words | medium; not executed | Kernels.AvxCzLoopOverruns | Kernels.CzAvx |
| c_lib/src/simd/simd_tableau_operations.c:478-613 | the AVX SH, RH, HS and HR loops stop below `n_qubits / 8` bytes | 5 qubits: the loop never runs, so SH leaves stabiliser 0's X on qubit 0 in place | loop over all `slice_len` words | medium; not executed | Kernels.AvxLocalLoopSkipsSmallTableaux | Kernels.ApplyLocal |
