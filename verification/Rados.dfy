/** The part of RADOS that the striper relies on: objects that take asynchronous operations one at
    a time in submission order, each of which lands as a whole or not at all.  What a crash leaves
    behind is the objects as they have landed so far; what the client will read is the objects with
    everything still pending applied. */
module Rados {
  import opened Wrappers

  type Byte = b: int | 0 <= b < 256
  type Errno = rc: int | rc < 0 witness -5

  const ENOENT: Errno := -2

  /** Why an operation may fail; "no such object" is not a failure but an answer. */
  type Fault = rc: int | rc < 0 && rc != ENOENT witness -5

  /** The three numbers the striper keeps as extended attributes of its first object. */
  datatype Xattrs = Xattrs(size: nat, alloc: nat, version: nat)

  datatype Object = Object(data: seq<Byte>, xattrs: Xattrs)

  datatype Op =
    | Write(off: nat, bytes: seq<Byte>)
    | Remove
    | SetXattrs(alloc: Option<nat>, size: Option<nat>, version: nat)

  /** How an operation ended: applied, with nothing there to remove, or without effect. */
  datatype Outcome = Landed(op: Op) | Missing | Failed(op: Op, rc: Fault)

  /** Which operation it was. */
  function Subject(o: Outcome): Op {
    if o.Missing? then Remove else o.op
  }

  /** One object: what is stored, the operations still queued on it, and how the earlier ones ended. */
  datatype Cell = Cell(obj: Option<Object>, pending: seq<Op>, done: seq<Outcome>)

  type Pool = map<nat, Cell>

  /** The n-th operation ever submitted on the object of one stripe. */
  datatype Handle = Handle(stripe: nat, n: nat)

  function At(p: Pool, k: nat): Cell {
    if k in p then p[k] else Cell(None, [], [])
  }

  const FRESH: Object := Object([], Xattrs(0, 0, 0))

  function Existing(o: Option<Object>): Object {
    if o.Some? then o.value else FRESH
  }

  /** Overwrites bytes from offset `off` on; a gap before `off` is filled with zeros. */
  function Patch(prior: seq<Byte>, off: nat, bytes: seq<Byte>): (r: seq<Byte>)
    ensures |r| == if |prior| < off + |bytes| then off + |bytes| else |prior|
    ensures forall i :: off <= i < off + |bytes| ==> r[i] == bytes[i - off]
    ensures forall i :: 0 <= i < |r| && !(off <= i < off + |bytes|) ==> r[i] == if i < |prior| then prior[i] else 0
  {
    var base := if |prior| < off then prior + seq(off - |prior|, _ => 0) else prior;
    base[..off] + bytes + (if off + |bytes| < |base| then base[off + |bytes|..] else [])
  }

  function Apply(o: Option<Object>, op: Op): Option<Object> {
    match op
    case Write(off, bytes) => Some(Existing(o).(data := Patch(Existing(o).data, off, bytes)))
    case Remove => None
    case SetXattrs(a, s, v) =>
      var x := Existing(o).xattrs;
      Some(Existing(o).(xattrs := Xattrs(if s.Some? then s.value else x.size,
                                         if a.Some? then a.value else x.alloc, v)))
  }

  function ApplyAll(o: Option<Object>, ops: seq<Op>): Option<Object>
    decreases |ops|
  {
    if ops == [] then o else ApplyAll(Apply(o, ops[0]), ops[1..])
  }

  /** What the object will be once everything queued has landed. */
  function Final(c: Cell): Option<Object> {
    ApplyAll(c.obj, c.pending)
  }

  /** The oldest queued operation ends: applied, found nothing to remove, or failed without effect. */
  function Land(c: Cell, fault: Option<Fault>): Cell
    requires c.pending != []
  {
    if fault.Some? then
      Cell(c.obj, c.pending[1..], c.done + [Failed(c.pending[0], fault.value)])
    else if c.pending[0].Remove? && c.obj.None? then
      Cell(None, c.pending[1..], c.done + [Missing])
    else
      Cell(Apply(c.obj, c.pending[0]), c.pending[1..], c.done + [Landed(c.pending[0])])
  }

  function Queued(c: Cell, op: Op): Cell {
    c.(pending := c.pending + [op])
  }

  function Enqueue(p: Pool, k: nat, op: Op): Pool {
    p[k := Queued(At(p, k), op)]
  }

  function NextHandle(p: Pool, k: nat): Handle {
    Handle(k, |At(p, k).done| + |At(p, k).pending|)
  }

  predicate IsDone(p: Pool, h: Handle) {
    h.n < |At(p, h.stripe).done|
  }

  predicate IsPending(p: Pool, h: Handle) {
    |At(p, h.stripe).done| <= h.n < |At(p, h.stripe).done| + |At(p, h.stripe).pending|
  }

  predicate HasFailed(p: Pool, h: Handle) {
    IsDone(p, h) && At(p, h.stripe).done[h.n].Failed?
  }

  function ReturnCode(o: Outcome): int {
    match o
    case Landed(_) => 0
    case Missing => ENOENT
    case Failed(_, rc) => rc
  }

  /** Every operation ever submitted on an object, in order. */
  function Ops(c: Cell): seq<Op> {
    seq(|c.done|, i requires 0 <= i < |c.done| => Subject(c.done[i])) + c.pending
  }

  /** The operation that a handle stands for. */
  function OpAt(p: Pool, h: Handle): Op
    requires IsPending(p, h) || IsDone(p, h)
  {
    Ops(At(p, h.stripe))[h.n]
  }

  /** The attributes that are stored are those of the last update that landed. */
  ghost predicate StoredBy(c: Cell) {
    && c.obj.Some?
    && exists i :: 0 <= i < |c.done| && LastLanded(c.done, i) && c.done[i].op.version == c.obj.value.xattrs.version
  }

  predicate LastLanded(done: seq<Outcome>, i: nat)
    requires i < |done|
  {
    && done[i].Landed? && done[i].op.SetXattrs?
    && forall j :: i < j < |done| && done[j].Landed? ==> !done[j].op.SetXattrs?
  }

  predicate CellClean(c: Cell) {
    forall o :: o in c.done ==> !o.Failed?
  }

  /** No operation has failed so far. */
  ghost predicate Clean(p: Pool) {
    forall k :: CellClean(At(p, k))
  }

  /** Removals, and updates that carry an allocation: what decides how much space the objects may take. */
  predicate SpaceOp(op: Op) {
    op.Remove? || (op.SetXattrs? && op.alloc.Some?)
  }

  /** No such operation has failed so far. */
  ghost predicate SpaceClean(p: Pool) {
    forall k, o :: o in At(p, k).done && o.Failed? ==> !SpaceOp(o.op)
  }

  /** The values of `allocated` that the object may show now or after some queued operations landed. */
  function Allocs(c: Cell): set<nat> {
    (if c.obj.Some? then {c.obj.value.xattrs.alloc} else {}) + PendingAllocs(c.pending)
  }

  function PendingAllocs(ops: seq<Op>): set<nat> {
    set i | 0 <= i < |ops| && ops[i].SetXattrs? && ops[i].alloc.Some? :: ops[i].alloc.value
  }

  /** The object exists or may come to exist. */
  predicate Occupied(c: Cell) {
    c.obj.Some? || exists i :: 0 <= i < |c.pending| && !c.pending[i].Remove?
  }

  function LandAll(c: Cell, faults: seq<Option<Fault>>): (d: Cell)
    requires |faults| <= |c.pending|
    ensures |d.pending| == |c.pending| - |faults|
    decreases |faults|
  {
    if faults == [] then c else LandAll(Land(c, faults[0]), faults[1..])
  }

  /** The cluster can move on by itself from `c` to `d`. */
  ghost predicate Evolves(c: Cell, d: Cell)
    ensures Evolves(c, d) ==> Moves(c, d)
  {
    assert (exists faults: seq<Option<Fault>> :: |faults| <= |c.pending| && d == LandAll(c, faults)) ==> Moves(c, d) by {
      forall faults: seq<Option<Fault>> | |faults| <= |c.pending| && d == LandAll(c, faults)
        ensures Moves(c, d)
      {
        LandAllMoves(c, faults);
      }
    }
    exists faults: seq<Option<Fault>> :: |faults| <= |c.pending| && d == LandAll(c, faults)
  }

  /** What is sure of a cell that the cluster has moved on from `c` to `d`. */
  ghost predicate Moves(c: Cell, d: Cell) {
    var n := |d.done| - |c.done|;
    && c.done <= d.done
    && n <= |c.pending|
    && d.pending == c.pending[n..]
    && (n == 0 ==> d == c)
    && (CellClean(d) ==> Final(d) == Final(c))
    && (Occupied(d) ==> Occupied(c))
    && (c.obj.Some? && Remove !in c.pending ==>
          d.obj.Some? && Remove !in d.pending && Allocs(d) <= Allocs(c) && (StoredBy(c) ==> StoredBy(d)))
    && (Doomed(c) ==> Doomed(d))
    && Ops(d) == Ops(c)
  }

  /** The last operation ever queued is a removal that is still to come, was done, or failed. */
  predicate Doomed(c: Cell) {
    if c.pending != [] then c.pending[|c.pending| - 1] == Remove
    else c.done != [] && (c.obj.None? || c.done[|c.done| - 1].Failed?)
  }

  ghost predicate PoolEvolves(p: Pool, q: Pool) {
    Evolution(p, q) == Sound
  }

  ghost function Evolution(p: Pool, q: Pool): Verdict {
    if forall k :: Evolves(At(p, k), At(q, k)) then Sound else Broken
  }

  lemma EvolvesAt(p: Pool, q: Pool, k: nat)
    requires PoolEvolves(p, q)
    ensures Evolves(At(p, k), At(q, k)) && Moves(At(p, k), At(q, k))
  {
  }

  lemma LandFinal(c: Cell, fault: Option<Fault>)
    requires c.pending != []
    ensures CellClean(Land(c, fault)) ==> Final(Land(c, fault)) == Final(c)
  {
    var d := Land(c, fault);
    if CellClean(d) { assert d.done[|d.done| - 1] in d.done; }
  }

  lemma LandOccupied(c: Cell, fault: Option<Fault>)
    requires c.pending != []
    ensures Occupied(Land(c, fault)) ==> Occupied(c)
  {
    var d := Land(c, fault);
    assert forall i :: 0 <= i < |d.pending| ==> d.pending[i] == c.pending[i + 1];
    if c.obj.None? && !c.pending[0].Remove? { assert Occupied(c); }
  }

  lemma LandAllocs(c: Cell, fault: Option<Fault>)
    requires c.pending != [] && c.obj.Some? && Remove !in c.pending
    ensures var d := Land(c, fault);
            d.obj.Some? && Remove !in d.pending && Allocs(d) <= Allocs(c)
  {
    var d := Land(c, fault);
    assert c.pending[0] != Remove;
    assert forall i :: 0 <= i < |d.pending| ==> d.pending[i] == c.pending[i + 1];
    assert PendingAllocs(d.pending) <= PendingAllocs(c.pending);
  }

  lemma LandOps(c: Cell, fault: Option<Fault>)
    requires c.pending != []
    ensures Ops(Land(c, fault)) == Ops(c)
  {
    var d := Land(c, fault);
    assert d.done == c.done + [d.done[|c.done|]] && Subject(d.done[|c.done|]) == c.pending[0];
    assert c.pending == [c.pending[0]] + d.pending;
  }

  lemma OpsQueued(c: Cell, op: Op)
    ensures Ops(Queued(c, op)) == Ops(c) + [op]
  {
  }

  lemma OpsLength(c: Cell)
    ensures |Ops(c)| == |c.done| + |c.pending|
  {
  }

  lemma LandStored(c: Cell, fault: Option<Fault>)
    requires c.pending != [] && c.pending[0] != Remove && StoredBy(c)
    ensures StoredBy(Land(c, fault))
  {
    var d, n := Land(c, fault), |c.done|;
    assert forall j :: 0 <= j < n ==> d.done[j] == c.done[j];
    if d.done[n].Landed? && c.pending[0].SetXattrs? {
      assert LastLanded(d.done, n);
    } else {
      var i :| 0 <= i < n && LastLanded(c.done, i) && c.done[i].op.version == c.obj.value.xattrs.version;
      assert LastLanded(d.done, i);
    }
  }

  lemma LandMoves(c: Cell, fault: Option<Fault>)
    requires c.pending != []
    ensures Moves(c, Land(c, fault))
  {
    hide Final, Allocs, Occupied, CellClean, Ops, StoredBy;
    LandFinal(c, fault);
    LandOccupied(c, fault);
    LandOps(c, fault);
    if c.obj.Some? && Remove !in c.pending {
      LandAllocs(c, fault);
      assert c.pending[0] in c.pending;
      if StoredBy(c) { LandStored(c, fault); }
    }
  }

  lemma MovesTrans(c: Cell, d: Cell, e: Cell)
    requires Moves(c, d) && Moves(d, e)
    ensures Moves(c, e)
  {
    hide Final, Allocs, Occupied, Doomed, Ops, StoredBy;
    var n, m := |d.done| - |c.done|, |e.done| - |d.done|;
    assert c.pending[n..][m..] == c.pending[n + m..];
    if CellClean(e) {
      assert CellClean(d) by {
        forall o | o in d.done ensures !o.Failed? { assert o in e.done; }
      }
    }
  }

  lemma {:induction false} LandAllMoves(c: Cell, faults: seq<Option<Fault>>)
    requires |faults| <= |c.pending|
    ensures Moves(c, LandAll(c, faults))
    decreases |faults|
  {
    if faults == [] {
      assert c.pending[0..] == c.pending;
    } else {
      LandMoves(c, faults[0]);
      LandAllMoves(Land(c, faults[0]), faults[1..]);
      MovesTrans(c, Land(c, faults[0]), LandAll(c, faults));
    }
  }

  /** The operations that do not fail, in order. */
  function Survivors(ops: seq<Op>, faults: seq<Option<Fault>>): seq<Op>
    requires |faults| <= |ops|
    decreases |faults|
  {
    if faults == [] then []
    else (if faults[0].None? then [ops[0]] else []) + Survivors(ops[1..], faults[1..])
  }

  /** Exactly the operations that did not fail have had their effect. */
  lemma {:induction false} LandAllSurvivors(c: Cell, faults: seq<Option<Fault>>)
    requires |faults| <= |c.pending|
    ensures LandAll(c, faults).obj == ApplyAll(c.obj, Survivors(c.pending, faults))
    decreases |faults|
  {
    if faults != [] {
      var rest := Survivors(c.pending[1..], faults[1..]);
      LandAllSurvivors(Land(c, faults[0]), faults[1..]);
      assert [] + rest == rest && ([c.pending[0]] + rest)[1..] == rest;
    }
  }

  lemma EvolvesRefl(c: Cell)
    ensures Evolves(c, c)
  {
    assert c == LandAll(c, []);
  }

  lemma LandEvolves(c: Cell, fault: Option<Fault>)
    requires c.pending != []
    ensures Evolves(c, Land(c, fault))
  {
    assert Land(c, fault) == LandAll(c, [fault]);
  }

  lemma {:induction false} LandAllConcat(c: Cell, fs: seq<Option<Fault>>, gs: seq<Option<Fault>>)
    requires |fs| + |gs| <= |c.pending|
    ensures LandAll(LandAll(c, fs), gs) == LandAll(c, fs + gs)
    decreases |fs|
  {
    if fs == [] {
      assert fs + gs == gs;
    } else {
      LandAllConcat(Land(c, fs[0]), fs[1..], gs);
      assert (fs + gs)[1..] == fs[1..] + gs;
    }
  }

  lemma EvolvesTrans(c: Cell, d: Cell, e: Cell)
    requires Evolves(c, d) && Evolves(d, e)
    ensures Evolves(c, e)
  {
    hide Moves, LandAll;
    var fs: seq<Option<Fault>> :| |fs| <= |c.pending| && d == LandAll(c, fs);
    var gs: seq<Option<Fault>> :| |gs| <= |d.pending| && e == LandAll(d, gs);
    LandAllConcat(c, fs, gs);
  }

  lemma {:induction false} LandAllQueued(c: Cell, fs: seq<Option<Fault>>, op: Op)
    requires |fs| <= |c.pending|
    ensures LandAll(Queued(c, op), fs) == Queued(LandAll(c, fs), op)
    decreases |fs|
  {
    if fs != [] {
      assert (c.pending + [op])[1..] == c.pending[1..] + [op];
      LandAllQueued(Land(c, fs[0]), fs[1..], op);
    }
  }

  /** Queueing an operation commutes with the cluster moving on. */
  lemma QueuedEvolves(c: Cell, d: Cell, op: Op)
    requires Evolves(c, d)
    ensures Evolves(Queued(c, op), Queued(d, op))
  {
    hide Moves, LandAll;
    var fs: seq<Option<Fault>> :| |fs| <= |c.pending| && d == LandAll(c, fs);
    LandAllQueued(c, fs, op);
  }

  lemma LandAllLast(c: Cell, all: seq<Option<Fault>>, op: Op)
    requires |all| == |c.pending| + 1
    ensures LandAll(Queued(c, op), all)
         == Land(Queued(LandAll(c, all[..|all| - 1]), op), all[|all| - 1])
  {
    var fs, gs := all[..|all| - 1], [all[|all| - 1]];
    assert all == fs + gs;
    LandAllConcat(Queued(c, op), fs, gs);
    LandAllQueued(c, fs, op);
    var e := Queued(LandAll(c, fs), op);
    assert LandAll(e, gs) == LandAll(Land(e, gs[0]), gs[1..]);
  }

  /** An operation that has ended when nothing is queued any more landed last, on an object that
      everything before it had reached. */
  lemma QueuedDrained(c: Cell, d: Cell, op: Op) returns (e: Cell, fault: Option<Fault>)
    requires Evolves(Queued(c, op), d) && d.pending == []
    ensures Evolves(c, e) && e.pending == [] && d == Land(Queued(e, op), fault)
  {
    hide Moves, LandAll, Land;
    var all: seq<Option<Fault>> :| |all| <= |Queued(c, op).pending| && d == LandAll(Queued(c, op), all);
    assert |d.pending| == |c.pending| + 1 - |all|;
    LandAllLast(c, all, op);
    fault := all[|all| - 1];
    e := LandAll(c, all[..|all| - 1]);
  }

  lemma {:induction false} ApplyAllAppend(o: Option<Object>, ops: seq<Op>, op: Op)
    ensures ApplyAll(o, ops + [op]) == Apply(ApplyAll(o, ops), op)
    decreases |ops|
  {
    if ops == [] {
      assert [op][1..] == [];
    } else {
      assert (ops + [op])[1..] == ops[1..] + [op];
      ApplyAllAppend(Apply(o, ops[0]), ops[1..], op);
    }
  }

  lemma FinalQueued(c: Cell, op: Op)
    ensures Final(Queued(c, op)) == Apply(Final(c), op)
  {
    ApplyAllAppend(c.obj, c.pending, op);
  }

  lemma OccupiedQueued(c: Cell, op: Op)
    ensures Occupied(Queued(c, op)) <==> Occupied(c) || !op.Remove?
  {
    var e := Queued(c, op);
    assert e.pending[|c.pending|] == op;
    assert forall i :: 0 <= i < |c.pending| ==> e.pending[i] == c.pending[i];
  }

  lemma AllocsQueued(c: Cell, op: Op)
    ensures Allocs(Queued(c, op)) == Allocs(c) +
              (if op.SetXattrs? && op.alloc.Some? then {op.alloc.value} else {})
  {
    var e := Queued(c, op);
    assert e.pending[|c.pending|] == op;
    assert forall i :: 0 <= i < |c.pending| ==> e.pending[i] == c.pending[i];
    forall a | a in PendingAllocs(c.pending) ensures a in PendingAllocs(e.pending) {
      var i :| 0 <= i < |c.pending| && c.pending[i].SetXattrs? && c.pending[i].alloc.Some?
               && c.pending[i].alloc.value == a;
      assert e.pending[i] == c.pending[i];
    }
    if op.SetXattrs? && op.alloc.Some? {
      assert op.alloc.value in PendingAllocs(e.pending);
    }
  }

  lemma PoolEvolvesTrans(p: Pool, q: Pool, r: Pool)
    requires PoolEvolves(p, q) && PoolEvolves(q, r)
    ensures PoolEvolves(p, r)
  {
    forall k ensures Evolves(At(p, k), At(r, k)) {
      EvolvesTrans(At(p, k), At(q, k), At(r, k));
    }
  }

  lemma PoolEvolvesRefl(p: Pool)
    ensures PoolEvolves(p, p)
  {
    forall k ensures Evolves(At(p, k), At(p, k)) {
      EvolvesRefl(At(p, k));
    }
  }

  lemma PoolLandEvolves(p: Pool, k: nat, fault: Option<Fault>)
    requires At(p, k).pending != []
    ensures PoolEvolves(p, p[k := Land(At(p, k), fault)])
  {
    LandEvolves(At(p, k), fault);
    forall j ensures Evolves(At(p, j), At(p[k := Land(At(p, k), fault)], j)) {
      EvolvesRefl(At(p, j));
    }
  }

  lemma EnqueueEvolves(p: Pool, q: Pool, k: nat, op: Op)
    requires PoolEvolves(p, q)
    ensures PoolEvolves(Enqueue(p, k, op), Enqueue(q, k, op))
  {
    hide Evolves, Moves;
    forall j ensures Evolves(At(Enqueue(p, k, op), j), At(Enqueue(q, k, op), j)) {
      assert Evolves(At(p, j), At(q, j));
      QueuedEvolves(At(p, k), At(q, k), op);
    }
  }

  /** A clean pool was clean before, and its objects will end up the same. */
  lemma EvolvesClean(p: Pool, q: Pool)
    requires PoolEvolves(p, q) && Clean(q)
    ensures Clean(p)
    ensures forall k :: Final(At(q, k)) == Final(At(p, k))
  {
    forall k ensures CellClean(At(p, k)) && Final(At(q, k)) == Final(At(p, k)) {
      assert Evolves(At(p, k), At(q, k));
      assert CellClean(At(q, k));
      forall o | o in At(p, k).done ensures !o.Failed? { assert o in At(q, k).done; }
    }
  }
}
