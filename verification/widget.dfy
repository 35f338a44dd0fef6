/**
 * Instruction dispatch on a widget (c_lib/src/input_stream.c).
 *
 * A widget owns a tableau, a Clifford queue, a map from logical qubits
 * (the indices instructions name) to physical qubits (tableau columns), the
 * number of live physical qubits and the capacity.  Local Cliffords are only
 * queued; any other operation on a qubit first drains its queued Clifford
 * into the tableau.
 *
 * The Pauli tracker and the conditional-Pauli routines are not part of this
 * model: the widget records each call made to them, in order, in `log`.
 */
module InputStream {
  import opened Cliffords
  import opened Tableaux
  import opened Kernels
  import opened CliffordQueues
  import opened Elimination

  /** A call into the Pauli tracker or into the conditional-Pauli table. */
  datatype TrackerCall =
    | TrackLocal(gate: Clifford, q: nat)
    | TrackNonLocal(pair: TwoQubitGate, ctrl: nat, targ: nat)
    | TrackZ(ctrl: nat, targ: nat)
    | TrackX(ctrl: nat, targ: nat)
    | ConditionalCall(pauli: nat, ctrl: nat, targ: nat)

  /**
   * An instruction record, by type code: 0x01 local Clifford, 0x02 two-qubit
   * Clifford, 0x04 teleported Rz, 0x06 conditional Pauli.  `Unassigned`
   * stands for the type codes 0x00, 0x03, 0x05 and 0x07, whose dispatch
   * entries are empty.  A conditional's `pauli` is its masked opcode.
   */
  datatype Instruction =
    | LocalClifford(gate: Clifford, arg: nat)
    | NonLocalClifford(pair: TwoQubitGate, ctrl: nat, targ: nat)
    | RzRotation(arg: nat, tag: nat)
    | ConditionalPauli(pauli: nat, ctrl: nat, targ: nat)
    | Unassigned(code: nat)

  /** The dispatch tables have an entry for the instruction: no empty type slot, no empty conditional slot (0x04 .. 0x07). */
  predicate Dispatchable(ins: Instruction)
  {
    !ins.Unassigned? && (ins.ConditionalPauli? ==> ins.pauli < 4)
  }

  /** Every logical operand of the instruction has a map entry. */
  predicate OperandsMapped(ins: Instruction, nLogical: nat)
  {
    match ins
    case LocalClifford(_, arg) => arg < nLogical
    case NonLocalClifford(_, ctrl, targ) => ctrl < nLogical && targ < nLogical
    case RzRotation(arg, _) => arg < nLogical
    case ConditionalPauli(_, ctrl, targ) => ctrl < nLogical && targ < nLogical
    case Unassigned(_) => true
  }

  /** The content of a widget: tableau, queued Cliffords, tags, qubit map, live qubit count and tracker calls. */
  datatype WState = WState(tab: TabState, table: seq<Clifford>, tags: seq<Tag>, qMap: seq<nat>, nQubits: nat,
                           log: seq<TrackerCall>)

  /** One queue entry and one tag per physical qubit, the live qubits within capacity, and `L` processed words. */
  predicate Fitted(w: WState, L: nat)
  {
    WellFormed(w.tab) && |w.tab.xs| == |w.table| && |w.tags| == |w.table| && L <= |w.tab.ph|
    && w.nQubits <= |w.table|
  }

  /** Every logical qubit maps to a live physical qubit. */
  predicate MapLive(w: WState)
  {
    forall l :: 0 <= l < |w.qMap| ==> w.qMap[l] < w.nQubits
  }

  /** Draining qubit q: its queued Clifford is applied to the tableau and its entry reset to I. */
  function DrainSpec(w: WState, q: nat, L: nat): (r: WState)
    requires Fitted(w, L) && q < |w.table|
    ensures Fitted(r, L) && r.table == w.table[q := I]
    ensures r.tags == w.tags && r.qMap == w.qMap && r.nQubits == w.nQubits && r.log == w.log
  {
    w.(tab := Local(w.table[q], q, L, w.tab), table := w.table[q := I])
  }

  /**
   * `__inline_local_clifford_gate`: the entry of the operand's physical qubit
   * becomes LOCAL_CLIFFORD_LEFT(op, entry); the tableau is not touched.
   */
  function LocalGateSpec(w: WState, op: Clifford, arg: nat, left: (Clifford, Clifford) -> Clifford): (r: WState)
    requires arg < |w.qMap| && w.qMap[arg] < |w.table|
    ensures r.tab == w.tab && r.tags == w.tags && r.qMap == w.qMap && r.nQubits == w.nQubits
    ensures |r.table| == |w.table| && forall q :: 0 <= q < |w.table| && q != w.qMap[arg] ==> r.table[q] == w.table[q]
  {
    var q := w.qMap[arg];
    w.(table := w.table[q := left(op, w.table[q])], log := w.log + [TrackLocal(op, q)])
  }

  /**
   * With a composition table obeying its law, the kernel of the composed
   * entry acts on every processed bit as the two kernels in turn.
   */
  lemma ComposedKernelLane(left: (Clifford, Clifford) -> Clifford, op: Clifford, e: Clifford, q: nat, L: nat,
                           s: TabState, k: nat)
    requires LeftTableLaw(left) && HasColumn(s, q) && L <= |s.ph| && k < 64 * L
    ensures LaneAt(ColumnOf(Local(left(op, e), q, L, s), q), k) == LaneAt(ColumnOf(Local(op, q, L, Local(e, q, L, s)), q), k)
  {
    assert k / 64 < L;
    var l := LaneAt(ColumnOf(s, q), k);
    LocalLane(left(op, e), q, L, s, k);
    LocalLane(e, q, L, s, k);
    LocalLane(op, q, L, Local(e, q, L, s), k);
    assert Rule(left(op, e), l) == Rule(op, Rule(e, l));
  }

  /**
   * With a composition table obeying its law, queuing a local Clifford and
   * draining the qubit later acts on every processed bit as draining first
   * and applying the Clifford at once would, and leaves the other qubits'
   * slices alike.
   */
  lemma DeferredLocalAgrees(left: (Clifford, Clifford) -> Clifford, op: Clifford, w: WState, arg: nat, L: nat, k: nat)
    requires LeftTableLaw(left) && Fitted(w, L) && arg < |w.qMap| && w.qMap[arg] < |w.table|
    requires k < 64 * L
    ensures var q := w.qMap[arg];
      var deferred := DrainSpec(LocalGateSpec(w, op, arg, left), q, L).tab;
      var direct := Local(op, q, L, DrainSpec(w, q, L).tab);
      LaneAt(ColumnOf(deferred, q), k) == LaneAt(ColumnOf(direct, q), k)
      && (forall j :: 0 <= j < |deferred.xs| && j != q ==> deferred.xs[j] == direct.xs[j] && deferred.zs[j] == direct.zs[j])
  {
    var q := w.qMap[arg];
    var e := w.table[q];
    assert DrainSpec(LocalGateSpec(w, op, arg, left), q, L).tab == Local(left(op, e), q, L, w.tab);
    assert DrainSpec(w, q, L).tab == Local(e, q, L, w.tab);
    ComposedKernelLane(left, op, e, q, L, w.tab, k);
  }

  /** `apply_local_cliffords` over qubits 0 .. i - 1: each is drained in turn. */
  function DrainAll(w: WState, L: nat, i: nat): (r: WState)
    requires Fitted(w, L) && i <= |w.table|
    ensures Fitted(r, L) && |r.table| == |w.table|
    ensures forall q :: 0 <= q < |w.table| ==> r.table[q] == if q < i then I else w.table[q]
    ensures r.tags == w.tags && r.qMap == w.qMap && r.nQubits == w.nQubits && r.log == w.log
  {
    if i == 0 then w else DrainSpec(DrainAll(w, L, i - 1), i - 1, L)
  }

  lemma DrainAllUnfold(w: WState, L: nat, i: nat, p: WState)
    requires Fitted(w, L) && i < |w.table| && p == DrainAll(w, L, i)
    ensures Fitted(p, L) && i < |p.table|
    ensures DrainAll(w, L, i + 1) == DrainSpec(p, i, L)
  {
  }

  /**
   * `__inline_non_local_clifford_gate`: drain the control's and then the
   * target's physical qubit, apply the two-qubit gate, and track it.
   */
  function NonLocalSpec(w: WState, op: TwoQubitGate, ctrl: nat, targ: nat, L: nat): (r: WState)
    requires Fitted(w, L) && ctrl < |w.qMap| && targ < |w.qMap|
    requires w.qMap[ctrl] < |w.table| && w.qMap[targ] < |w.table|
    ensures Fitted(r, L) && r.table == w.table[w.qMap[ctrl] := I][w.qMap[targ] := I]
    ensures r.tags == w.tags && r.qMap == w.qMap && r.nQubits == w.nQubits
    ensures r.log == w.log + [TrackNonLocal(op, w.qMap[ctrl], w.qMap[targ])]
  {
    var c, t := w.qMap[ctrl], w.qMap[targ];
    var d := DrainSpec(DrainSpec(w, c, L), t, L);
    d.(tab := Two(op, c, t, L, d.tab), log := d.log + [TrackNonLocal(op, c, t)])
  }

  /**
   * `__inline_rz_gate`: with a free physical qubit, tag the operand's
   * physical qubit, remap the operand to the new qubit, drain both, apply
   * CNOT from the old to the new qubit, track a Z correction and count the
   * new qubit; at capacity, fail and change nothing.
   */
  function RzSpec(w: WState, arg: nat, tag: nat, L: nat): (r: Option<WState>)
    requires Fitted(w, L) && arg < |w.qMap| && w.qMap[arg] < |w.table|
    ensures r.None? <==> w.nQubits == |w.table|
    ensures r.Some? ==> Fitted(r.value, L) && r.value.nQubits == w.nQubits + 1
    ensures r.Some? ==> r.value.qMap == w.qMap[arg := w.nQubits]
    ensures r.Some? ==> r.value.tags == w.tags[w.qMap[arg] := RzTag(tag)]
    ensures r.Some? ==> r.value.table == w.table[w.qMap[arg] := I][w.nQubits := I]
    ensures r.Some? ==> r.value.log == w.log + [TrackZ(w.qMap[arg], w.nQubits)]
  {
    if w.nQubits >= |w.table| then None
    else
      var c, t := w.qMap[arg], w.nQubits;
      var a := w.(tags := w.tags[c := RzTag(tag)], qMap := w.qMap[arg := t]);
      var d := DrainSpec(DrainSpec(a, c, L), t, L);
      Some(d.(tab := Two(CNOT, c, t, L, d.tab), log := d.log + [TrackZ(c, t)], nQubits := t + 1))
  }

  /** A teleported Rz keeps every logical qubit on a live physical qubit, and its CNOT joins two distinct qubits. */
  lemma RzKeepsMapLive(w: WState, arg: nat, tag: nat, L: nat)
    requires Fitted(w, L) && MapLive(w) && arg < |w.qMap|
    ensures w.qMap[arg] < |w.table|
    ensures RzSpec(w, arg, tag, L).Some? ==> MapLive(RzSpec(w, arg, tag, L).value) && w.qMap[arg] != w.nQubits
  {
  }

  /**
   * `__inline_conditional_instruction`: call the conditional-Pauli routine on
   * the two physical qubits, then give the control's physical qubit the
   * bare-measurement tag.
   */
  function ConditionalSpec(w: WState, op: nat, ctrl: nat, targ: nat): (r: WState)
    requires ctrl < |w.qMap| && targ < |w.qMap| && w.qMap[ctrl] < |w.tags|
    ensures r.tab == w.tab && r.table == w.table && r.qMap == w.qMap && r.nQubits == w.nQubits
    ensures r.tags == w.tags[w.qMap[ctrl] := BareMeasurement]
  {
    var c, t := w.qMap[ctrl], w.qMap[targ];
    w.(log := w.log + [ConditionalCall(op, c, t)], tags := w.tags[c := BareMeasurement])
  }

  /** One dispatched instruction; None when a teleported Rz finds the widget full. */
  function Step(w: WState, ins: Instruction, L: nat, left: (Clifford, Clifford) -> Clifford): (r: Option<WState>)
    requires Fitted(w, L) && MapLive(w) && Dispatchable(ins) && OperandsMapped(ins, |w.qMap|)
    ensures r.Some? ==> Fitted(r.value, L) && MapLive(r.value) && |r.value.qMap| == |w.qMap|
    ensures r.Some? ==> r.value.nQubits == w.nQubits + (if ins.RzRotation? then 1 else 0)
    ensures r.None? <==> ins.RzRotation? && w.nQubits == |w.table|
  {
    match ins
    case LocalClifford(op, arg) => Some(LocalGateSpec(w, op, arg, left))
    case NonLocalClifford(op, ctrl, targ) => Some(NonLocalSpec(w, op, ctrl, targ, L))
    case RzRotation(arg, tag) =>
      RzKeepsMapLive(w, arg, tag, L);
      RzSpec(w, arg, tag, L)
    case ConditionalPauli(op, ctrl, targ) => Some(ConditionalSpec(w, op, ctrl, targ))
  }

  /** Where a block of instructions leaves the widget, and whether every instruction was dispatched. */
  datatype Outcome = Outcome(state: WState, completed: bool)

  /**
   * `parse_instruction_block`: the instructions in index order, stopping at
   * the first that cannot be dispatched.  The live qubit count only grows,
   * and every logical qubit stays on a live physical qubit.
   */
  function Run(w: WState, instrs: seq<Instruction>, L: nat, left: (Clifford, Clifford) -> Clifford): (o: Outcome)
    requires Fitted(w, L) && MapLive(w)
    requires forall i :: 0 <= i < |instrs| ==> Dispatchable(instrs[i]) && OperandsMapped(instrs[i], |w.qMap|)
    ensures Fitted(o.state, L) && MapLive(o.state) && |o.state.qMap| == |w.qMap| && |o.state.table| == |w.table|
    ensures w.nQubits <= o.state.nQubits
    ensures !o.completed ==> o.state.nQubits == |w.table|
    decreases |instrs|
  {
    if instrs == [] then Outcome(w, true)
    else
      match Step(w, instrs[0], L, left)
      case None => Outcome(w, false)
      case Some(w') => Run(w', instrs[1..], L, left)
  }

  /**
   * One pass of the loop of `teleport_input`: Hadamards on input qubit c and
   * on its partner nInit + c, CZ between them, logical qubit c moved onto
   * the partner, and an X correction tracked.
   */
  function TeleportStep(p: WState, nInit: nat, L: nat, c: nat): (r: WState)
    requires Fitted(p, L) && nInit + c < |p.table| && c < |p.qMap|
    ensures Fitted(r, L) && r.table == p.table && r.tags == p.tags && r.nQubits == p.nQubits
    ensures r.qMap == p.qMap[c := p.qMap[c] + nInit] && r.log == p.log + [TrackX(c, nInit + c)]
  {
    var t := nInit + c;
    p.(tab := Two(CZ, c, t, L, Local(H, t, L, Local(H, c, L, p.tab))),
       qMap := p.qMap[c := p.qMap[c] + nInit],
       log := p.log + [TrackX(c, t)])
  }

  /** The tableau after the passes of `teleport_input` for input qubits 0 .. i - 1. */
  function PairTabs(s: TabState, nInit: nat, L: nat, i: nat): (r: TabState)
    requires WellFormed(s) && nInit + i <= |s.xs| && L <= |s.ph|
    ensures WellFormed(r) && |r.xs| == |s.xs| && |r.ph| == |s.ph|
  {
    if i == 0 then s
    else
      var p, c, t := PairTabs(s, nInit, L, i - 1), i - 1, nInit + i - 1;
      Two(CZ, c, t, L, Local(H, t, L, Local(H, c, L, p)))
  }

  /** The logical-to-physical map with logical qubits 0 .. i - 1 moved up by nInit physical qubits. */
  function MovedUp(m: seq<nat>, nInit: nat, i: nat): (r: seq<nat>)
    ensures |r| == |m|
  {
    seq(|m|, l requires 0 <= l < |m| => m[l] + if l < i then nInit else 0)
  }

  /** The X corrections tracked by the passes for input qubits 0 .. i - 1, in order. */
  function TeleportLog(nInit: nat, i: nat): (r: seq<TrackerCall>)
    ensures |r| == i
  {
    seq(i, k requires 0 <= k < i => TrackX(k, nInit + k))
  }

  /**
   * The Bell-pair preparation of `teleport_input` for input qubits
   * 0 .. i - 1: the pair gates in order on the tableau, logical qubits
   * 0 .. i - 1 moved up by nInit, and one X correction tracked per pair.
   */
  function TeleportPairs(w: WState, nInit: nat, L: nat, i: nat): (r: WState)
    requires Fitted(w, L) && nInit + i <= |w.table| && i <= |w.qMap|
    ensures Fitted(r, L) && r.table == w.table && r.tags == w.tags && r.nQubits == w.nQubits
  {
    w.(tab := PairTabs(w.tab, nInit, L, i), qMap := MovedUp(w.qMap, nInit, i), log := w.log + TeleportLog(nInit, i))
  }

  /** With no pass run, nothing has changed. */
  lemma TeleportPairsNone(w: WState, nInit: nat, L: nat)
    requires Fitted(w, L) && nInit <= |w.table|
    ensures TeleportPairs(w, nInit, L, 0) == w
  {
    assert MovedUp(w.qMap, nInit, 0) == w.qMap;
    assert w.log + TeleportLog(nInit, 0) == w.log;
  }

  /** Moving one more logical qubit up is one more map update. */
  lemma MovedUpStep(m: seq<nat>, nInit: nat, i: nat)
    requires i < |m|
    ensures var u := MovedUp(m, nInit, i); u[i := u[i] + nInit] == MovedUp(m, nInit, i + 1)
  {
    var u := MovedUp(m, nInit, i);
    assert u[i := u[i] + nInit] == MovedUp(m, nInit, i + 1);
  }

  /** One more pass tracks one more X correction, at the end of the log. */
  lemma TeleportLogStep(nInit: nat, i: nat)
    ensures TeleportLog(nInit, i) + [TrackX(i, nInit + i)] == TeleportLog(nInit, i + 1)
  {
    assert TeleportLog(nInit, i) + [TrackX(i, nInit + i)] == TeleportLog(nInit, i + 1);
  }

  /** The closed form after i + 1 passes is one more pass, as the loop runs it, after i passes. */
  lemma TeleportPairsUnfold(w: WState, nInit: nat, L: nat, i: nat, p: WState)
    requires Fitted(w, L) && nInit + i < |w.table| && i < |w.qMap|
    requires p == TeleportPairs(w, nInit, L, i)
    ensures Fitted(p, L) && nInit + i < |p.table| && i < |p.qMap|
    ensures TeleportPairs(w, nInit, L, i + 1) == TeleportStep(p, nInit, L, i)
  {
    MovedUpStep(w.qMap, nInit, i);
    TeleportLogStep(nInit, i);
  }

  /**
   * One pair of `teleport_input`, Hadamards on both qubits and then CZ, is a
   * Hadamard on the first, a CNOT from the first to the second and a
   * Hadamard on the second.
   */
  lemma TeleportPairIsHadamardCnot(c: nat, t: nat, L: nat, s: TabState)
    requires WellFormed(s) && c < |s.xs| && t < |s.xs| && c != t && L <= |s.ph|
    ensures Two(CZ, c, t, L, Local(H, t, L, Local(H, c, L, s))) == Local(H, t, L, Two(CNOT, c, t, L, Local(H, c, L, s)))
  {
    var hc := Local(H, c, L, s);
    var both := Local(H, t, L, hc);
    CzIsHCnotH(c, t, L, both);
    LocalInverses(t, L, hc);
  }

  class Widget {
    const tableau: Tableau
    const queue: CliffordQueue
    /** The physical qubit of each logical qubit. */
    const qMap: array<nat>
    var nQubits: nat
    const nInitialQubits: nat
    const maxQubits: nat
    /** The calls made to the Pauli tracker and to the conditional-Pauli routines. */
    var log: seq<TrackerCall>

    ghost predicate Valid()
      reads this, tableau, tableau.slicesX, tableau.slicesZ, queue
    {
      tableau.Valid() && queue.Valid()
      && tableau.slicesX.Length == maxQubits && queue.table.Length == maxQubits
      && nQubits <= maxQubits
    }

    function State(): WState
      reads this, tableau, tableau.slicesX, tableau.slicesZ, tableau.phases, queue, queue.table,
        queue.nonCliffords, qMap
    {
      WState(tableau.State(), queue.table[..], queue.nonCliffords[..], qMap[..], nQubits, log)
    }

    lemma StateFitted()
      requires Valid()
      ensures Fitted(State(), tableau.sliceLen)
    {
      tableau.StateWellFormed();
    }

    /**
     * Assembles a widget from its parts, with `nInitial` live qubits and
     * nothing tracked yet.
     */
    constructor (tableau: Tableau, queue: CliffordQueue, qMap: array<nat>, nInitial: nat, maxQubits: nat)
      requires tableau.Valid() && queue.Valid()
      requires tableau.slicesX.Length == maxQubits && queue.table.Length == maxQubits && nInitial <= maxQubits
      ensures Valid() && this.tableau == tableau && this.queue == queue && this.qMap == qMap
      ensures nQubits == nInitial && nInitialQubits == nInitial && this.maxQubits == maxQubits && log == []
    {
      this.tableau := tableau;
      this.queue := queue;
      this.qMap := qMap;
      this.nQubits := nInitial;
      this.nInitialQubits := nInitial;
      this.maxQubits := maxQubits;
      this.log := [];
    }

    /** Apply the queued Clifford of physical qubit q to the tableau and reset the entry to I. */
    method Drain(q: nat)
      requires Valid() && q < maxQubits
      modifies tableau.slicesX, tableau.slicesZ, tableau.phases, queue.table
      ensures Valid() && Fitted(old(State()), tableau.sliceLen)
      ensures State() == DrainSpec(old(State()), q, tableau.sliceLen)
    {
      StateFitted();
      ApplyLocal(tableau, queue.table[q], q);
      queue.table[q] := I;
    }

    /** `__inline_local_clifford_gate`. */
    method LocalGate(op: Clifford, arg: nat)
      requires Valid() && arg < qMap.Length && qMap[arg] < maxQubits
      modifies queue.table, this`log
      ensures Valid() && State() == LocalGateSpec(old(State()), op, arg, queue.left)
    {
      var target := qMap[arg];
      queue.table[target] := queue.left(op, queue.table[target]);
      log := log + [TrackLocal(op, target)];
    }

    /** `apply_local_cliffords`: drain every live qubit in order, leaving its entry I. */
    method ApplyLocalCliffords()
      requires Valid()
      modifies tableau.slicesX, tableau.slicesZ, tableau.phases, queue.table
      ensures Valid() && Fitted(old(State()), tableau.sliceLen)
      ensures State() == DrainAll(old(State()), tableau.sliceLen, nQubits)
    {
      StateFitted();
      ghost var w0 := State();
      var i := 0;
      while i < nQubits
        invariant 0 <= i <= nQubits && Valid()
        invariant State() == DrainAll(w0, tableau.sliceLen, i)
      {
        DrainNext(w0, i);
        i := i + 1;
      }
    }

    /** Pass i of the loop of `apply_local_cliffords`, from state w0 before pass 0. */
    method DrainNext(ghost w0: WState, i: nat)
      requires Valid() && i < maxQubits
      requires Fitted(w0, tableau.sliceLen) && i < |w0.table|
      requires State() == DrainAll(w0, tableau.sliceLen, i)
      modifies tableau.slicesX, tableau.slicesZ, tableau.phases, queue.table
      ensures Valid()
      ensures State() == DrainAll(w0, tableau.sliceLen, i + 1)
    {
      ghost var p := State();
      Drain(i);
      DrainAllUnfold(w0, tableau.sliceLen, i, p);
    }

    /** `__inline_non_local_clifford_gate`. */
    method NonLocalGate(op: TwoQubitGate, ctrl: nat, targ: nat)
      requires Valid() && ctrl < qMap.Length && targ < qMap.Length && qMap[ctrl] < maxQubits && qMap[targ] < maxQubits
      modifies tableau.slicesX, tableau.slicesZ, tableau.phases, queue.table, this`log
      ensures Valid() && Fitted(old(State()), tableau.sliceLen)
      ensures State() == NonLocalSpec(old(State()), op, ctrl, targ, tableau.sliceLen)
    {
      var c := qMap[ctrl];
      var t := qMap[targ];
      Drain(c);
      Drain(t);
      ApplyTwo(tableau, op, c, t);
      log := log + [TrackNonLocal(op, c, t)];
    }

    /** `__inline_rz_gate`; `ok` is false, and nothing changes, when every physical qubit is in use. */
    method RzGate(arg: nat, tag: nat) returns (ok: bool)
      requires Valid() && arg < qMap.Length && qMap[arg] < maxQubits
      modifies tableau.slicesX, tableau.slicesZ, tableau.phases, queue.table, queue.nonCliffords, qMap, this
      ensures Valid() && Fitted(old(State()), tableau.sliceLen)
      ensures var r := RzSpec(old(State()), arg, tag, tableau.sliceLen);
        ok == r.Some? && State() == if ok then r.value else old(State())
    {
      StateFitted();
      if nQubits >= maxQubits {
        return false;
      }
      RzTeleport(arg, tag);
      return true;
    }

    /** The body of `__inline_rz_gate` once a free physical qubit is known to exist. */
    method RzTeleport(arg: nat, tag: nat)
      requires Valid() && Fitted(State(), tableau.sliceLen)
      requires arg < qMap.Length && qMap[arg] < maxQubits && nQubits < maxQubits
      modifies tableau.slicesX, tableau.slicesZ, tableau.phases, queue.table, queue.nonCliffords, qMap, this
      ensures Valid()
      ensures RzSpec(old(State()), arg, tag, tableau.sliceLen).Some?
      ensures State() == RzSpec(old(State()), arg, tag, tableau.sliceLen).value
    {
      var c := qMap[arg];
      var t := nQubits;
      TagAndRemap(arg, tag);
      Drain(c);
      Drain(t);
      CnotOntoNewQubit(c, t);
    }

    /** The start of `__inline_rz_gate`: tag the operand's physical qubit and remap the operand to the first free qubit. */
    method TagAndRemap(arg: nat, tag: nat)
      requires Valid() && arg < qMap.Length && qMap[arg] < maxQubits
      modifies queue.nonCliffords, qMap
      ensures Valid()
      ensures var w := old(State());
        State() == w.(tags := w.tags[w.qMap[arg] := RzTag(tag)], qMap := w.qMap[arg := nQubits])
    {
      queue.nonCliffords[qMap[arg]] := RzTag(tag);
      qMap[arg] := nQubits;
    }

    /** The end of `__inline_rz_gate`: CNOT from c to the new qubit t, a tracked Z correction, and t counted live. */
    method CnotOntoNewQubit(c: nat, t: nat)
      requires Valid() && c < maxQubits && t == nQubits < maxQubits
      modifies tableau.slicesX, tableau.slicesZ, tableau.phases, this
      ensures Valid()
      ensures var w := old(State());
        State() == w.(tab := Two(CNOT, c, t, tableau.sliceLen, w.tab), log := w.log + [TrackZ(c, t)], nQubits := t + 1)
    {
      ApplyTwo(tableau, CNOT, c, t);
      log := log + [TrackZ(c, t)];
      nQubits := nQubits + 1;
    }

    /** `__inline_conditional_instruction`. */
    method Conditional(op: nat, ctrl: nat, targ: nat)
      requires Valid() && op < 4 && ctrl < qMap.Length && targ < qMap.Length && qMap[ctrl] < maxQubits
      modifies queue.nonCliffords, this`log
      ensures Valid() && State() == ConditionalSpec(old(State()), op, ctrl, targ)
    {
      var c := qMap[ctrl];
      var t := qMap[targ];
      log := log + [ConditionalCall(op, c, t)];
      queue.nonCliffords[c] := BareMeasurement;
    }

    /** `instruction_switch`: dispatch one instruction by its type. */
    method Dispatch(ins: Instruction) returns (ok: bool)
      requires Valid() && MapLive(State()) && Dispatchable(ins) && OperandsMapped(ins, qMap.Length)
      modifies tableau.slicesX, tableau.slicesZ, tableau.phases, queue.table, queue.nonCliffords, qMap, this
      ensures Valid() && Fitted(old(State()), tableau.sliceLen)
      ensures var r := Step(old(State()), ins, tableau.sliceLen, queue.left);
        ok == r.Some? && State() == if ok then r.value else old(State())
    {
      StateFitted();
      match ins
      case LocalClifford(op, arg) =>
        LocalGate(op, arg);
        ok := true;
      case NonLocalClifford(op, ctrl, targ) =>
        NonLocalGate(op, ctrl, targ);
        ok := true;
      case RzRotation(arg, tag) =>
        ok := RzGate(arg, tag);
      case ConditionalPauli(op, ctrl, targ) =>
        Conditional(op, ctrl, targ);
        ok := true;
    }

    /**
     * `parse_instruction_block`: dispatch the instructions in index order;
     * `completed` is false when a teleported Rz found the widget full, and
     * the widget is then left as the instructions before it made it.
     */
    method ParseInstructionBlock(instrs: seq<Instruction>) returns (completed: bool)
      requires Valid() && MapLive(State())
      requires forall i :: 0 <= i < |instrs| ==> Dispatchable(instrs[i]) && OperandsMapped(instrs[i], qMap.Length)
      modifies tableau.slicesX, tableau.slicesZ, tableau.phases, queue.table, queue.nonCliffords, qMap, this
      ensures Valid() && Fitted(old(State()), tableau.sliceLen)
      ensures var o := Run(old(State()), instrs, tableau.sliceLen, queue.left);
        State() == o.state && completed == o.completed
    {
      StateFitted();
      ghost var w0 := State();
      var i := 0;
      while i < |instrs|
        invariant 0 <= i <= |instrs| && Valid() && MapLive(State())
        invariant Run(w0, instrs, tableau.sliceLen, queue.left) == Run(State(), instrs[i..], tableau.sliceLen, queue.left)
      {
        StateFitted();
        assert instrs[i..][0] == instrs[i] && instrs[i..][1..] == instrs[i + 1..];
        var ok := Dispatch(instrs[i]);
        if !ok {
          return false;
        }
        i := i + 1;
      }
      StateFitted();
      return true;
    }

    /**
     * `teleport_input`: with room for `nIn` more qubits after the initial
     * ones, count them live, and pair each input qubit i with qubit
     * nInitialQubits + i (Hadamard on both, then CZ), moving logical qubit i
     * onto the second and tracking an X correction; without room, fail and
     * change nothing.
     */
    method TeleportInput(nIn: nat) returns (ok: bool)
      requires Valid() && nQubits == nInitialQubits && nIn <= qMap.Length
      modifies tableau.slicesX, tableau.slicesZ, tableau.phases, qMap, this
      ensures Valid() && Fitted(old(State()), tableau.sliceLen)
      ensures ok == (nInitialQubits + nIn <= maxQubits)
      ensures State() == if ok
        then TeleportPairs(old(State()).(nQubits := old(nQubits) + nIn), nInitialQubits, tableau.sliceLen, nIn)
        else old(State())
    {
      StateFitted();
      if maxQubits < nInitialQubits + nIn {
        return false;
      }
      nQubits := nQubits + nIn;
      TeleportPairsLoop(nIn);
      return true;
    }

    /** The loop of `teleport_input` over input qubits 0 .. nIn - 1. */
    method TeleportPairsLoop(nIn: nat)
      requires Valid() && nInitialQubits + nIn <= maxQubits && nIn <= qMap.Length
      modifies tableau.slicesX, tableau.slicesZ, tableau.phases, qMap, this`log
      ensures Valid() && Fitted(old(State()), tableau.sliceLen)
      ensures State() == TeleportPairs(old(State()), nInitialQubits, tableau.sliceLen, nIn)
    {
      StateFitted();
      ghost var w0 := State();
      var i := 0;
      while i < nIn
        invariant 0 <= i <= nIn && Valid()
        invariant State() == TeleportPairs(w0, nInitialQubits, tableau.sliceLen, i)
      {
        TeleportNext(w0, i);
        i := i + 1;
      }
    }

    /** Pass i of the loop of `teleport_input`, from state w0 before pass 0. */
    method TeleportNext(ghost w0: WState, i: nat)
      requires Valid() && nInitialQubits + i < maxQubits && i < qMap.Length
      requires Fitted(w0, tableau.sliceLen) && nInitialQubits + i < |w0.table| && i < |w0.qMap|
      requires State() == TeleportPairs(w0, nInitialQubits, tableau.sliceLen, i)
      modifies tableau.slicesX, tableau.slicesZ, tableau.phases, qMap, this`log
      ensures Valid()
      ensures State() == TeleportPairs(w0, nInitialQubits, tableau.sliceLen, i + 1)
    {
      ghost var p := State();
      TeleportPair(i, p);
      TeleportPairsUnfold(w0, nInitialQubits, tableau.sliceLen, i, p);
    }

    /** One pass of the loop of `teleport_input`: input qubit i and its partner nInitialQubits + i. */
    method TeleportPair(i: nat, ghost w: WState)
      requires Valid() && State() == w && Fitted(w, tableau.sliceLen) && nInitialQubits + i < maxQubits && i < qMap.Length
      modifies tableau.slicesX, tableau.slicesZ, tableau.phases, qMap, this`log
      ensures Valid()
      ensures State() == TeleportStep(w, nInitialQubits, tableau.sliceLen, i)
    {
      PairGatesOn(i, w);
      MoveOntoPartner(i, w);
    }

    /** The gates of one pass of `teleport_input`, on input qubit i and its partner nInitialQubits + i. */
    method PairGatesOn(i: nat, ghost w: WState)
      requires Valid() && State() == w && nInitialQubits + i < maxQubits && i < maxQubits
      modifies tableau.slicesX, tableau.slicesZ, tableau.phases
      ensures Valid()
      ensures State() == w.(tab := Two(CZ, i, nInitialQubits + i, tableau.sliceLen,
        Local(H, nInitialQubits + i, tableau.sliceLen, Local(H, i, tableau.sliceLen, w.tab))))
    {
      var t, L := nInitialQubits + i, tableau.sliceLen;
      StateFitted();
      ghost var w1 := w.(tab := Local(H, i, L, w.tab));
      ghost var w2 := w1.(tab := Local(H, t, L, w1.tab));
      HadamardOn(i, w);
      HadamardOn(t, w1);
      CzOn(i, t, w2);
    }

    /** `tableau_H` on physical qubit q, from widget state w. */
    method HadamardOn(q: nat, ghost w: WState)
      requires Valid() && State() == w && q < maxQubits
      modifies tableau.slicesX, tableau.slicesZ, tableau.phases
      ensures Valid() && State() == w.(tab := Local(H, q, tableau.sliceLen, w.tab))
    {
      ApplyLocal(tableau, H, q);
    }

    /** `tableau_CZ` from physical qubit c to physical qubit t, from widget state w. */
    method CzOn(c: nat, t: nat, ghost w: WState)
      requires Valid() && State() == w && c < maxQubits && t < maxQubits
      modifies tableau.slicesX, tableau.slicesZ, tableau.phases
      ensures Valid() && State() == w.(tab := Two(CZ, c, t, tableau.sliceLen, w.tab))
    {
      ApplyTwo(tableau, CZ, c, t);
    }

    /**
     * The end of one pass of `teleport_input`, once the pass's gates have
     * run: logical qubit i moves up by nInitialQubits and an X correction
     * is tracked.
     */
    method MoveOntoPartner(i: nat, ghost w: WState)
      requires Valid() && Fitted(w, tableau.sliceLen) && nInitialQubits + i < |w.table| && i < |w.qMap|
      requires State() == w.(tab := Two(CZ, i, nInitialQubits + i, tableau.sliceLen,
        Local(H, nInitialQubits + i, tableau.sliceLen, Local(H, i, tableau.sliceLen, w.tab))))
      modifies qMap, this`log
      ensures Valid()
      ensures State() == TeleportStep(w, nInitialQubits, tableau.sliceLen, i)
    {
      qMap[i] := qMap[i] + nInitialQubits;
      log := log + [TrackX(i, nInitialQubits + i)];
    }
  }
}
