/**
 * The Clifford queue of the widget: per physical qubit, the local Clifford
 * waiting to be applied to the tableau, and the non-Clifford tag of the
 * qubit.
 *
 * The composition tables LOCAL_CLIFFORD_LEFT and LOCAL_CLIFFORD_RIGHT are
 * not part of this model; the queue carries them as two functions, and the
 * laws they are meant to satisfy (c_lib/tests/src/test_clifford_table.c) are
 * stated as predicates over those functions.
 */
module CliffordQueues {
  import opened Cliffords

  /** What a qubit's non-Clifford slot holds: the tag of a teleported rotation, or the bare-measurement tag. */
  datatype Tag = Untagged | RzTag(tag: nat) | BareMeasurement

  /** LOCAL_CLIFFORD_LEFT(a, b) is the gate doing b, then a. */
  ghost predicate LeftTableLaw(left: (Clifford, Clifford) -> Clifford)
  {
    forall a, b, l :: Rule(left(a, b), l) == Rule(a, Rule(b, l))
  }

  /** LOCAL_CLIFFORD_RIGHT(a, b) is the gate doing a, then b. */
  ghost predicate RightTableLaw(right: (Clifford, Clifford) -> Clifford)
  {
    forall a, b, l :: Rule(right(a, b), l) == Rule(b, Rule(a, l))
  }

  class CliffordQueue {
    /** The queued local Clifford of each physical qubit. */
    const table: array<Clifford>
    /** The non-Clifford tag of each physical qubit. */
    const nonCliffords: array<Tag>
    /** LOCAL_CLIFFORD_LEFT. */
    const left: (Clifford, Clifford) -> Clifford
    /** LOCAL_CLIFFORD_RIGHT. */
    const right: (Clifford, Clifford) -> Clifford

    ghost predicate Valid()
      reads this
    {
      table.Length == nonCliffords.Length
    }

    /** A queue for `n` qubits: nothing queued and nothing tagged. */
    constructor (n: nat, left: (Clifford, Clifford) -> Clifford, right: (Clifford, Clifford) -> Clifford)
      ensures Valid() && fresh(table) && fresh(nonCliffords)
      ensures table[..] == seq(n, q => I) && nonCliffords[..] == seq(n, q => Untagged)
      ensures this.left == left && this.right == right
    {
      table := new Clifford[n](q => I);
      nonCliffords := new Tag[n](q => Untagged);
      this.left := left;
      this.right := right;
    }

    /**
     * `clifford_queue_local_clifford_right(queue, g, q)`: compose g into the
     * entry of qubit q with the right table, g as the first operand.
     */
    method LocalCliffordRight(g: Clifford, q: nat)
      requires q < table.Length
      modifies table
      ensures table[..] == old(table[..])[q := right(g, old(table[q]))]
      ensures RightTableLaw(right) ==> forall l :: Rule(table[q], l) == Rule(old(table[q]), Rule(g, l))
    {
      table[q] := right(g, table[q]);
    }
  }
}
