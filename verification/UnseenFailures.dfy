/** What comes of waits that do not say how an operation ended: concrete runs in which a failure goes
    unseen, and what decides whether it does any harm. */
module UnseenFailures {
  import opened Wrappers
  import opened Rados
  import opened Striping
  import opened RadosClient
  import opened StriperState

  const EIO: Fault := -5

  /** An object at rest takes one operation that would change it: it is changed exactly if that did not
      fail. */
  lemma LandedExactly(c: Cell, d: Cell, op: Op)
    requires c.pending == [] && d.pending == [] && Evolves(Queued(c, op), d) && Apply(c.obj, op) != c.obj
    ensures |d.done| == |c.done| + 1
    ensures d.obj == Apply(c.obj, op) <==> !d.done[|c.done|].Failed?
  {
    hide Evolves, Final, Allocs, Occupied, Doomed, CellClean;
    var e, fault := QueuedDrained(c, d, op);
    assert Moves(c, e);
    assert e == c && Queued(c, op).pending == [op];
  }

  /** A pool that is one object. */
  lemma PoolOf(c: Cell, d: Cell, faults: seq<Option<Fault>>)
    requires |faults| <= |c.pending| && d == LandAll(c, faults)
    ensures PoolEvolves(map[0 := c], map[0 := d])
  {
    forall k ensures Evolves(At(map[0 := c], k), At(map[0 := d], k)) {
      if k == 0 {
        assert Evolves(c, d);
      } else {
        EvolvesRefl(Cell(None, [], []));
      }
    }
  }

  lemma LandTwo(c: Cell, f: Option<Fault>, g: Option<Fault>)
    requires |c.pending| == 2
    ensures LandAll(c, [f, g]) == Land(Land(c, f), g)
  {
    assert [f, g][1..] == [g] && [g][1..] == [];
    var d := Land(c, f);
    assert LandAll(c, [f, g]) == LandAll(d, [g]) == LandAll(Land(d, g), []);
  }

  lemma AloneSteady(c: Cell)
    requires c.obj.Some? && Remove !in c.pending
    ensures Steady(map[0 := c])
  {
    assert forall k :: k > 0 ==> At(map[0 := c], k) == Cell(None, [], []);
  }

  /** What has become of the first object of a file so far: it was created, and its allocation has grown. */
  const GROWN: seq<Outcome> := CREATED.done + [Landed(SetXattrs(Some(MIN_GROWTH), None, 1))]

  /** The first object of a file of one byte, with the write of that byte and then the update of the size on
      their way. */
  function OneByteQueued(b: Byte): Cell {
    Cell(Some(Object([], Xattrs(0, MIN_GROWTH, 1))), [Write(0, [b]), SetXattrs(None, Some(1), 2)],
         GROWN)
  }

  /** The memory of a striper that has queued them in flush() and is about to wait. */
  const WAITING: Mem := Mem(1, MIN_GROWTH, 2, false, [Handle(0, 2), Handle(0, 3)], 0, [],
                            Story([], [], [Handle(0, 1)], []), true, false, true, true)

  lemma OneByteFinal(b: Byte)
    ensures Final(OneByteQueued(b)) == Some(Object([b], Xattrs(1, MIN_GROWTH, 2)))
  {
    var c := OneByteQueued(b);
    assert c.pending[1..] == [c.pending[1]] && c.pending[1..][1..] == [];
    assert Patch([], 0, [b]) == [b];
    var o := Apply(c.obj, c.pending[0]);
    assert Final(c) == ApplyAll(o, [c.pending[1]]) == ApplyAll(Apply(o, c.pending[1]), []);
  }

  /** The same object when the write has failed and the update has landed. */
  function Lost(b: Byte): Cell {
    Cell(Some(Object([], Xattrs(1, MIN_GROWTH, 2))), [],
         GROWN + [Failed(Write(0, [b]), EIO), Landed(SetXattrs(None, Some(1), 2))])
  }

  lemma OneByteLost(b: Byte)
    ensures LandAll(OneByteQueued(b), [Some(EIO), None]) == Lost(b)
  {
    var c := OneByteQueued(b);
    LandTwo(c, Some(EIO), None);
    assert c.pending[1..] == [c.pending[1]] && c.pending[1..][1..] == [];
  }

  lemma OneByteOps(b: Byte)
    ensures Ops(OneByteQueued(b)) == [SetXattrs(Some(0), Some(0), 0), SetXattrs(Some(MIN_GROWTH), None, 1),
                                      Write(0, [b]), SetXattrs(None, Some(1), 2)]
  {
  }

  lemma OneByteFirst(b: Byte)
    ensures FirstCellOk(OneByteQueued(b), WAITING)
  {
    var c := OneByteQueued(b);
    OneByteOps(b);
    OneByteFinal(b);
    assert PendingAllocs(c.pending) == {};
    assert LastLanded(c.done, 1);
    assert LastUpdate(Ops(c), 3);
  }

  lemma OneByteWaits(b: Byte)
    ensures QueueOk(map[0 := OneByteQueued(b)], WAITING, [])
  {
    var p := map[0 := OneByteQueued(b)];
    OneByteOps(b);
    forall h ensures IsPending(p, h) ==> h == Handle(0, 2) || h == Handle(0, 3)
             ensures !HasFailed(p, h)
    {
    }
    assert OpAt(p, Handle(0, 1)) == SetXattrs(Some(MIN_GROWTH), None, 1);
    assert OpAt(p, Handle(0, 2)) == Write(0, [b]) && OpAt(p, Handle(0, 3)) == SetXattrs(None, Some(1), 2);
  }

  lemma OneByteOk(b: Byte)
    ensures var p := map[0 := OneByteQueued(b)];
            Inv(p, WAITING, []) && ContentOk(p, WAITING, [b])
  {
    hide Steadiness, QueueOk, FirstCellOk;
    AloneSteady(OneByteQueued(b));
    OneByteWaits(b);
    OneByteFirst(b);
    OneByteFinal(b);
    assert MIN_GROWTH % STRIPE == 0;
  }

  /** flush() returns 0 and the byte is lost: its write fails while flush() waits for it, which leaves the
      remembered failure at 0.  The size that is stored says that the byte is there. */
  lemma LostByte(b: Byte) returns (p: Pool, q: Pool)
    ensures p == map[0 := OneByteQueued(b)] && Inv(p, WAITING, []) && ContentOk(p, WAITING, [b])
    ensures PoolEvolves(p, q) && Quiet(q) && !Clean(q)
    ensures Popped(q, Popped(q, WAITING, true), true) == WAITING.(aios := [], story := WAITING.story.(drained := WAITING.aios))
    ensures At(q, 0).obj.Some? && At(q, 0).obj.value.xattrs == Xattrs(1, MIN_GROWTH, 2) && !Stores(q, [b])
  {
    hide Inv, ContentOk, LandAll, Evolution;
    OneByteOk(b);
    OneByteLost(b);
    PoolOf(OneByteQueued(b), Lost(b), [Some(EIO), None]);
    p, q := map[0 := OneByteQueued(b)], map[0 := Lost(b)];
    assert Lost(b).done[2] in Lost(b).done && !CellClean(At(q, 0));
    assert !HasByte(At(q, 0 / STRIPE).obj, 0 % STRIPE, [b][0]);
    assert WAITING.aios[1..][1..] == [];
  }

  /** A failure need not lose anything: the same byte is written twice and only the first write fails.  So
      that nothing failed is enough for the file to be stored, but not needed. */
  lemma HarmlessFailure(b: Byte) returns (p: Pool, q: Pool)
    ensures p == map[0 := CREATED.(pending := [Write(0, [b]), Write(0, [b])])]
    ensures PoolEvolves(p, q) && Quiet(q) && !Clean(q) && Stores(q, [b])
  {
    hide LandAll, Evolution;
    var c := CREATED.(pending := [Write(0, [b]), Write(0, [b])]);
    var d := Cell(Some(Object([b], FRESH.xattrs)), [], CREATED.done + [Failed(Write(0, [b]), EIO), Landed(Write(0, [b]))]);
    TwiceWritten(b);
    PoolOf(c, d, [Some(EIO), None]);
    p, q := map[0 := c], map[0 := d];
    assert d.done[1] in d.done && !CellClean(At(q, 0));
  }

  lemma TwiceWritten(b: Byte)
    ensures LandAll(CREATED.(pending := [Write(0, [b]), Write(0, [b])]), [Some(EIO), None])
         == Cell(Some(Object([b], FRESH.xattrs)), [], CREATED.done + [Failed(Write(0, [b]), EIO), Landed(Write(0, [b]))])
  {
    var c := CREATED.(pending := [Write(0, [b]), Write(0, [b])]);
    LandTwo(c, Some(EIO), None);
    assert c.pending[1..] == [c.pending[1]] && c.pending[1..][1..] == [];
    assert Patch([], 0, [b]) == [b];
  }

  /** An update that was to grow the allocation of a new file fails while it is waited for.  In memory the
      allocation has grown all the same, so that a byte of the second object fits, and it dangles. */
  lemma GrowthLost(b: Byte) returns (p: Pool, q: Pool, m: Mem)
    ensures p == map[0 := CREATED] && Handover(p, [])
    ensures var op := SetXattrs(Some(MIN_GROWTH), None, 1);
            && PoolEvolves(Enqueue(p, 0, op), q)
            && m == Renewed(q, Opened(FRESH.xattrs, false), op, NextHandle(p, 0))
    ensures STRIPE < m.alloc && !NoDangling(Enqueue(q, 1, Write(0, [b])))
  {
    CreatedIsHandover(map[0 := CREATED]);
    var op := SetXattrs(Some(MIN_GROWTH), None, 1);
    var c := CREATED.(pending := [op]);
    var d := Land(c, Some(EIO));
    assert d == LandAll(c, [Some(EIO)]) by { assert [Some(EIO)][1..] == []; }
    PoolOf(c, d, [Some(EIO)]);
    p, q := map[0 := CREATED], map[0 := d];
    assert [] + [op] == [op] && Enqueue(p, 0, op) == map[0 := c];
    m := Renewed(q, Opened(FRESH.xattrs, false), op, NextHandle(p, 0));
    var r := Enqueue(q, 1, Write(0, [b]));
    assert At(r, 1).pending[0] == Write(0, [b]) && Occupied(At(r, 1));
    assert 0 in Allocs(At(r, 0));
  }
}
