/** What the striper's memory and the pool have to do with each other, and why every single step of
    the client and of the cluster keeps it that way. */
module StriperState {
  import opened Wrappers
  import opened Rados
  import opened Striping
  import opened RadosClient

  /** What became of operations that are no longer on the completion queue: those that were found to have
      ended in windows already reported, those that a blocking drain took off, those that were waited for
      one by one, and removals that were abandoned because the next one was refused. */
  datatype Story = Story(reported: seq<Handle>, drained: seq<Handle>, awaited: seq<Handle>, strays: seq<Handle>)

  const UNTOLD: Story := Story([], [], [], [])

  /** All of them. */
  function Recorded(s: Story): seq<Handle> {
    s.reported + s.drained + s.awaited + s.strays
  }

  /** Nothing was reported or drained in between; more may have been waited for, or abandoned. */
  predicate Longer(s: Story, t: Story) {
    && t == s.(awaited := t.awaited, strays := t.strays)
    && s.awaited <= t.awaited && s.strays <= t.strays
  }

  /** The striper's memory.  The last six fields are not program state but what has happened so far:
      the operations that were found to have ended, and taken off the completion queue, since the last
      report (`popped`), what became of the others (`story`), whether none of those failed that were waited
      for one by one (`landed`), whether a call has returned an error or a short count (`told`), and whether
      every request fitted the allocation (`bounded`) and started inside the file (`dense`). */
  datatype Mem = Mem(size: nat, alloc: nat, version: nat, dirty: bool, aios: seq<Handle>, failure: int,
                     popped: seq<Handle>, story: Story, landed: bool, told: bool, bounded: bool, dense: bool)

  /** What it takes to be sure that no extent dangles. */
  predicate Safe(m: Mem) {
    m.bounded && m.landed
  }

  /** Nothing that was found, queued or waited for before is forgotten, and nothing was reported. */
  predicate Remembers(m: Mem, n: Mem) {
    && m.popped <= n.popped && m.popped + m.aios <= n.popped + n.aios
    && (m.failure != 0 ==> n.failure == m.failure)
    && Longer(m.story, n.story)
  }

  lemma RemembersTrans(a: Mem, b: Mem, c: Mem)
    requires Remembers(a, b) && Remembers(b, c)
    ensures Remembers(a, c)
  {
  }

  lemma RemembersLength(m: Mem, n: Mem)
    requires Remembers(m, n)
    ensures |m.popped + m.aios| <= |n.popped + n.aios|
  {
  }

  lemma RemembersSame(m: Mem, n: Mem)
    requires n.popped == m.popped && m.aios <= n.aios && n.failure == m.failure && Longer(m.story, n.story)
    ensures Remembers(m, n)
  {
    assert n.popped + n.aios == (m.popped + m.aios) + n.aios[|m.aios|..];
  }

  function CodeOf(p: Pool, h: Handle): int {
    if IsDone(p, h) then ReturnCode(At(p, h.stripe).done[h.n]) else 0
  }

  /** The code of the first operation in `hs` that did not end well, or 0. */
  function FirstFailure(p: Pool, hs: seq<Handle>): int
    decreases |hs|
  {
    if hs == [] then 0
    else if CodeOf(p, hs[0]) != 0 then CodeOf(p, hs[0])
    else FirstFailure(p, hs[1..])
  }

  lemma {:induction false} FirstFailureIsFirst(p: Pool, hs: seq<Handle>)
    ensures FirstFailure(p, hs) <= 0
    ensures FirstFailure(p, hs) == 0 <==> forall h :: h in hs ==> CodeOf(p, h) == 0
    ensures FirstFailure(p, hs) != 0 ==>
              exists i :: 0 <= i < |hs| && CodeOf(p, hs[i]) == FirstFailure(p, hs)
                          && forall j :: 0 <= j < i ==> CodeOf(p, hs[j]) == 0
    decreases |hs|
  {
    if hs != [] {
      var tl := hs[1..];
      FirstFailureIsFirst(p, tl);
      assert forall h :: h in hs <==> h == hs[0] || h in tl;
      if CodeOf(p, hs[0]) == 0 && FirstFailure(p, tl) != 0 {
        var i :| 0 <= i < |tl| && CodeOf(p, tl[i]) == FirstFailure(p, tl)
                 && forall j :: 0 <= j < i ==> CodeOf(p, tl[j]) == 0;
        assert CodeOf(p, hs[i + 1]) == FirstFailure(p, hs);
        forall j | 0 <= j < i + 1 ensures CodeOf(p, hs[j]) == 0 {
          if j > 0 { assert hs[j] == tl[j - 1]; }
        }
      }
    }
  }

  lemma {:induction false} FirstFailureAppend(p: Pool, hs: seq<Handle>, h: Handle)
    ensures FirstFailure(p, hs + [h]) == if FirstFailure(p, hs) != 0 then FirstFailure(p, hs) else CodeOf(p, h)
    decreases |hs|
  {
    if hs == [] {
      assert (hs + [h])[1..] == [];
    } else {
      assert (hs + [h])[1..] == hs[1..] + [h];
      FirstFailureAppend(p, hs[1..], h);
    }
  }

  /** Every operation that is pending is on the completion queue, in `extra`, or abandoned; and every one that
      has failed is there too, or was taken off the queue, or was waited for. */
  ghost predicate Accounted(p: Pool, m: Mem, extra: seq<Handle>) {
    && (forall h :: IsPending(p, h) ==> h in m.aios || h in extra || h in m.story.strays)
    && (forall h :: HasFailed(p, h) ==> h in m.aios || h in extra || h in m.popped || h in Recorded(m.story))
  }

  /** None of these has failed. */
  predicate NoneFailed(p: Pool, hs: seq<Handle>) {
    forall h :: h in hs ==> !HasFailed(p, h)
  }

  predicate Submitted(p: Pool, h: Handle) {
    IsPending(p, h) || IsDone(p, h)
  }

  predicate AllSubmitted(p: Pool, hs: seq<Handle>) {
    forall h :: h in hs ==> Submitted(p, h)
  }

  predicate AllDone(p: Pool, hs: seq<Handle>) {
    forall h :: h in hs ==> IsDone(p, h)
  }

  /** These are removals and updates of the allocation. */
  predicate AllSpace(p: Pool, hs: seq<Handle>) {
    forall h :: h in hs ==> Submitted(p, h) && SpaceOp(OpAt(p, h))
  }

  /** None of these is. */
  predicate NoSpace(p: Pool, hs: seq<Handle>) {
    forall h :: h in hs ==> Submitted(p, h) && !SpaceOp(OpAt(p, h))
  }

  /** `extra` are operations that the client waits for one by one rather than through its queue. */
  ghost predicate QueueOk(p: Pool, m: Mem, extra: seq<Handle>) {
    && Accounted(p, m, extra)
    && AllDone(p, m.popped)
    && AllSubmitted(p, m.aios)
    && AllSpace(p, extra)
    && m.failure == FirstFailure(p, m.popped)
    && StoryOk(p, m)
    && (m.bounded ==> NoSpace(p, m.aios) && NoSpace(p, m.popped))
  }

  /** Whether one of the operations that were waited for failed is remembered by nobody but `landed`; removals
      are abandoned, and failures reported, only by a call that returns an error. */
  ghost predicate StoryOk(p: Pool, m: Mem) {
    && AllDone(p, m.story.reported) && AllDone(p, m.story.drained)
    && AllDone(p, m.story.awaited) && AllSpace(p, m.story.awaited)
    && AllSpace(p, m.story.strays)
    && (m.landed <==> NoneFailed(p, m.story.awaited))
    && (!m.told ==> m.story.strays == [] && NoneFailed(p, m.story.reported))
    && (m.bounded ==> NoSpace(p, m.story.reported) && NoSpace(p, m.story.drained))
  }

  /** The attributes show, now and whatever lands, the allocation `a`. */
  ghost predicate Shows(p: Pool, a: nat) {
    At(p, 0).obj.Some? && Remove !in At(p, 0).pending && Allocs(At(p, 0)) == {a}
  }

  /** The first object exists; its attributes show the allocation in memory if all updates of it that
      were waited for landed, and are those in memory, now or once all has landed, if none failed. */
  ghost predicate FirstObjectOk(p: Pool, m: Mem) {
    FirstCellOk(At(p, 0), m)
  }

  ghost predicate FirstCellOk(c: Cell, m: Mem) {
    && c.obj.Some? && Remove !in c.pending
    && (m.landed ==> Allocs(c) == {m.alloc})
    && (CellClean(c) ==> AttributesMatch(Final(c), m))
    && StoredBy(c) && Numbered(Ops(c), m.version)
  }

  /** The updates carry ascending versions, the last one `v`. */
  ghost predicate Numbered(ops: seq<Op>, v: nat) {
    && (forall i, j :: 0 <= i < j < |ops| && ops[i].SetXattrs? && ops[j].SetXattrs? ==> ops[i].version < ops[j].version)
    && exists i :: 0 <= i < |ops| && LastUpdate(ops, i) && ops[i].version == v
  }

  predicate LastUpdate(ops: seq<Op>, i: nat)
    requires i < |ops|
  {
    ops[i].SetXattrs? && forall j :: i < j < |ops| ==> !ops[j].SetXattrs?
  }

  lemma NumberedNext(ops: seq<Op>, v: nat, op: Op)
    requires Numbered(ops, v) && (op.SetXattrs? ==> v < op.version)
    ensures Numbered(ops + [op], if op.SetXattrs? then op.version else v)
  {
    var n := |ops|;
    var i :| 0 <= i < n && LastUpdate(ops, i) && ops[i].version == v;
    var all := ops + [op];
    assert all[n] == op && forall j :: 0 <= j < n ==> all[j] == ops[j];
    forall j, k | 0 <= j < k < |all| && all[j].SetXattrs? && all[k].SetXattrs? ensures all[j].version < all[k].version {
      if k == n { assert j <= i && ops[j].version <= v; }
    }
    assert LastUpdate(all, if op.SetXattrs? then n else i);
  }

  /** The last update of the attributes has failed. */
  predicate LastUpdateFailed(c: Cell) {
    exists i :: 0 <= i < |c.done| && c.done[i].Failed? && LastUpdate(Ops(c), i)
  }

  /** With nothing queued on the first object, the version that is stored is the one in memory exactly if the
      last update did not fail. */
  lemma VersionExact(c: Cell, m: Mem)
    requires FirstCellOk(c, m) && c.pending == []
    ensures c.obj.value.xattrs.version == m.version <==> !LastUpdateFailed(c)
  {
    hide Allocs, CellClean, AttributesMatch;
    var ops := Ops(c);
    assert |ops| == |c.done| && forall j :: 0 <= j < |ops| ==> ops[j] == Subject(c.done[j]);
    var i :| 0 <= i < |c.done| && LastLanded(c.done, i) && c.done[i].op.version == c.obj.value.xattrs.version;
    var k :| 0 <= k < |ops| && LastUpdate(ops, k) && ops[k].version == m.version;
    assert i <= k;
    if c.done[k].Failed? {
      assert i < k && ops[i].version < ops[k].version;
    } else {
      assert c.done[k].Landed? && i == k;
      forall j | 0 <= j < |c.done| && LastUpdate(ops, j) ensures j == k { }
    }
  }

  predicate AttributesMatch(o: Option<Object>, m: Mem) {
    && o.Some?
    && o.value.xattrs.alloc == m.alloc
    && o.value.xattrs.version == m.version
    && (!m.dirty ==> o.value.xattrs.size == m.size)
  }

  ghost predicate SpaceOk(p: Pool, m: Mem) {
    && AllocOk(m.alloc)
    && (m.bounded ==> m.size <= m.alloc)
    && (Safe(m) ==> Steady(p))
  }

  /** Unless an error was returned, little more is allocated than the file needs. */
  predicate Tight(m: Mem) {
    !m.told ==> m.alloc <= 2 * MIN_GROWTH + RoundUp(m.size)
  }

  /** As long as nothing failed, the objects hold the flat file `f`. */
  ghost predicate ContentOk(p: Pool, m: Mem, f: seq<Byte>) {
    Content(p, m, f) == Sound
  }

  ghost function Content(p: Pool, m: Mem, f: seq<Byte>): Verdict {
    if m.dense && !m.told && Clean(p) ==> Holds(p, f) then Sound else Broken
  }

  ghost predicate Inv(p: Pool, m: Mem, extra: seq<Handle>) {
    Standing(p, m, extra) == Sound
  }

  ghost function Standing(p: Pool, m: Mem, extra: seq<Handle>): Verdict {
    if QueueOk(p, m, extra) && FirstObjectOk(p, m) && SpaceOk(p, m) then Sound else Broken
  }

  lemma InvUse(p: Pool, m: Mem, extra: seq<Handle>)
    requires Inv(p, m, extra)
    ensures Safe(m) ==> Steady(p)
    ensures m.landed <==> NoneFailed(p, m.story.awaited)
    ensures forall h :: h in m.aios || h in extra ==> Submitted(p, h)
    ensures m.failure == FirstFailure(p, m.popped) <= 0
  {
    FirstFailureIsFirst(p, m.popped);
  }

  // ---- the cluster moves on ----

  lemma EvolvesHandle(p: Pool, q: Pool, h: Handle)
    requires PoolEvolves(p, q)
    ensures IsPending(q, h) ==> IsPending(p, h)
    ensures Submitted(p, h) ==> Submitted(q, h)
    ensures Submitted(p, h) ==> OpAt(q, h) == OpAt(p, h)
    ensures IsDone(p, h) ==> IsDone(q, h) && CodeOf(q, h) == CodeOf(p, h) && HasFailed(q, h) == HasFailed(p, h)
    ensures HasFailed(q, h) ==> HasFailed(p, h) || IsPending(p, h)
  {
    hide Evolution, Evolves, Final, Allocs, Occupied, Doomed, CellClean, Ops, StoredBy;
    EvolvesAt(p, q, h.stripe);
  }

  lemma HandleKept(a: Moment, b: Moment, h: Handle)
    requires Onward(a, b)
    ensures Submitted(a.pool, h) ==> Submitted(b.pool, h) && OpAt(b.pool, h) == OpAt(a.pool, h)
    ensures IsDone(a.pool, h) ==> IsDone(b.pool, h) && CodeOf(b.pool, h) == CodeOf(a.pool, h)
  {
    hide Ops;
    assert At(a.pool, h.stripe).done <= At(b.pool, h.stripe).done;
    assert Ops(At(a.pool, h.stripe)) <= Ops(At(b.pool, h.stripe));
    OpsLength(At(a.pool, h.stripe));
    OpsLength(At(b.pool, h.stripe));
  }

  lemma {:induction false} FirstFailureStable(p: Pool, q: Pool, hs: seq<Handle>)
    requires PoolEvolves(p, q)
    requires forall h :: h in hs ==> IsDone(p, h)
    ensures FirstFailure(q, hs) == FirstFailure(p, hs)
    decreases |hs|
  {
    if hs != [] {
      EvolvesHandle(p, q, hs[0]);
      FirstFailureStable(p, q, hs[1..]);
    }
  }

  lemma QueueEvolves(p: Pool, q: Pool, m: Mem, extra: seq<Handle>)
    requires QueueOk(p, m, extra) && PoolEvolves(p, q)
    ensures QueueOk(q, m, extra)
  {
    hide FirstFailure, PoolEvolves, OpAt, SpaceOp, IsDone, IsPending, HasFailed;
    forall h ensures (IsPending(q, h) ==> IsPending(p, h))
                  && (Submitted(p, h) ==> Submitted(q, h) && OpAt(q, h) == OpAt(p, h))
                  && (IsDone(p, h) ==> IsDone(q, h) && HasFailed(q, h) == HasFailed(p, h))
                  && (HasFailed(q, h) ==> HasFailed(p, h) || IsPending(p, h))
    {
      EvolvesHandle(p, q, h);
    }
    FirstFailureStable(p, q, m.popped);
    assert StoryOk(q, m);
  }

  lemma FirstObjectEvolves(p: Pool, q: Pool, m: Mem)
    requires FirstObjectOk(p, m) && PoolEvolves(p, q)
    ensures FirstObjectOk(q, m)
  {
    assert Evolves(At(p, 0), At(q, 0));
    FirstCellMoves(At(p, 0), At(q, 0), m);
  }

  lemma FirstCellMoves(c: Cell, d: Cell, m: Mem)
    requires FirstCellOk(c, m) && Moves(c, d)
    ensures FirstCellOk(d, m)
  {
    assert d.obj.value.xattrs.alloc in Allocs(d);
    if m.landed { assert Allocs(d) <= {m.alloc}; }
    if CellClean(d) {
      forall o | o in c.done ensures !o.Failed? { assert o in d.done; }
    }
  }

  lemma ContentEvolves(p: Pool, q: Pool, m: Mem, f: seq<Byte>)
    requires ContentOk(p, m, f) && PoolEvolves(p, q)
    ensures ContentOk(q, m, f)
  {
    if m.dense && !m.told && Clean(q) {
      EvolvesClean(p, q);
    }
  }

  /** Whatever lands, in whatever order and with whatever failures, the invariant stays. */
  lemma InvEvolves(p: Pool, q: Pool, m: Mem, extra: seq<Handle>, f: seq<Byte>)
    requires Inv(p, m, extra) && ContentOk(p, m, f) && PoolEvolves(p, q)
    ensures Inv(q, m, extra) && ContentOk(q, m, f)
  {
    QueueEvolves(p, q, m, extra);
    FirstObjectEvolves(p, q, m);
    ContentEvolves(p, q, m, f);
    if Safe(m) { SteadyEvolves(p, q); }
  }

  lemma ShowsEvolves(p: Pool, q: Pool, a: nat)
    requires Shows(p, a) && PoolEvolves(p, q)
    ensures Shows(q, a)
  {
    hide Evolution, Evolves;
    EvolvesAt(p, q, 0);
    assert At(q, 0).obj.value.xattrs.alloc in Allocs(At(q, 0));
  }

  lemma ShowsMemory(p: Pool, m: Mem, extra: seq<Handle>)
    requires Inv(p, m, extra) && m.landed
    ensures Shows(p, m.alloc)
  {
  }

  // ---- the client queues an operation ----

  lemma EnqueueHandle(p: Pool, k: nat, op: Op, g: Handle)
    ensures var q, h := Enqueue(p, k, op), NextHandle(p, k);
            && (IsPending(q, g) <==> IsPending(p, g) || g == h)
            && (IsDone(q, g) <==> IsDone(p, g)) && CodeOf(q, g) == CodeOf(p, g)
            && (HasFailed(q, g) <==> HasFailed(p, g))
            && (Submitted(p, g) ==> OpAt(q, g) == OpAt(p, g))
            && (g == h ==> OpAt(q, g) == op)
  {
    hide Ops;
    OpsQueued(At(p, k), op);
    OpsLength(At(p, k));
    OpsLength(At(p, g.stripe));
  }

  /** An operation is submitted, and will be waited for by itself. */
  lemma QueueExtra(p: Pool, k: nat, op: Op, m: Mem, extra: seq<Handle>)
    requires QueueOk(p, m, extra) && SpaceOp(op)
    ensures QueueOk(Enqueue(p, k, op), m, extra + [NextHandle(p, k)])
  {
    hide FirstFailure, CodeOf, OpAt, SpaceOp, IsDone, IsPending, HasFailed, Enqueue, NextHandle;
    var q, h := Enqueue(p, k, op), NextHandle(p, k);
    forall g ensures (IsPending(q, g) <==> IsPending(p, g) || g == h)
                  && (IsDone(q, g) <==> IsDone(p, g)) && CodeOf(q, g) == CodeOf(p, g)
                  && (HasFailed(q, g) <==> HasFailed(p, g))
                  && (Submitted(p, g) ==> OpAt(q, g) == OpAt(p, g))
                  && (g == h ==> OpAt(q, g) == op)
    {
      EnqueueHandle(p, k, op, g);
    }
    FirstFailureSame(p, q, m.popped);
    assert StoryOk(q, m);
  }

  /** An operation is submitted, and goes on the completion queue. */
  lemma QueuePush(p: Pool, k: nat, op: Op, m: Mem)
    requires QueueOk(p, m, []) && (m.bounded ==> !SpaceOp(op))
    ensures QueueOk(Enqueue(p, k, op), m.(aios := m.aios + [NextHandle(p, k)]), [])
  {
    hide FirstFailure, CodeOf, OpAt, SpaceOp, IsDone, IsPending, HasFailed, Enqueue, NextHandle, Recorded;
    var q, h := Enqueue(p, k, op), NextHandle(p, k);
    var n := m.(aios := m.aios + [h]);
    assert forall g :: g in n.aios <==> g in m.aios || g == h;
    forall g ensures (IsPending(q, g) <==> IsPending(p, g) || g == h)
                  && (IsDone(q, g) <==> IsDone(p, g)) && CodeOf(q, g) == CodeOf(p, g)
                  && (HasFailed(q, g) <==> HasFailed(p, g))
                  && (Submitted(p, g) ==> OpAt(q, g) == OpAt(p, g))
                  && (g == h ==> OpAt(q, g) == op)
    {
      EnqueueHandle(p, k, op, g);
    }
    FirstFailureSame(p, q, m.popped);
    assert StoryOk(q, m);
    assert StoryOk(q, n);
  }

  lemma {:induction false} FirstFailureSame(p: Pool, q: Pool, hs: seq<Handle>)
    requires forall h :: h in hs ==> CodeOf(q, h) == CodeOf(p, h)
    ensures FirstFailure(q, hs) == FirstFailure(p, hs)
    decreases |hs|
  {
    if hs != [] { FirstFailureSame(p, q, hs[1..]); }
  }

  /** Operations that were waited for, and how they ended. */
  function Waited(p: Pool, m: Mem, hs: seq<Handle>): Mem {
    m.(story := m.story.(awaited := m.story.awaited + hs), landed := m.landed && NoneFailed(p, hs))
  }

  lemma QueueSettle(p: Pool, m: Mem, hs: seq<Handle>)
    requires QueueOk(p, m, hs) && AllDone(p, hs)
    ensures QueueOk(p, Waited(p, m, hs), [])
  {
    hide FirstFailure, OpAt, SpaceOp, HasFailed;
    var n := Waited(p, m, hs);
    assert forall h :: h in n.story.awaited <==> h in m.story.awaited || h in hs;
    assert forall h :: h in Recorded(n.story) <==> h in Recorded(m.story) || h in hs;
    assert StoryOk(p, n);
  }

  /** The memory after operations that were to be waited for are abandoned. */
  function Abandoned(m: Mem, hs: seq<Handle>): Mem {
    m.(told := true, story := m.story.(strays := m.story.strays + hs))
  }

  lemma QueueAbandon(p: Pool, m: Mem, hs: seq<Handle>)
    requires QueueOk(p, m, hs)
    ensures QueueOk(p, Abandoned(m, hs), [])
  {
    hide FirstFailure, OpAt, SpaceOp, IsDone, IsPending, HasFailed;
    var n := Abandoned(m, hs);
    assert forall h :: h in n.story.strays <==> h in m.story.strays || h in hs;
    assert forall h :: h in Recorded(n.story) <==> h in Recorded(m.story) || h in hs;
    assert StoryOk(p, n);
  }

  /** The memory after the oldest operation of the completion queue, having ended, is taken off.  How it
      ended is looked at only if it was not waited for. */
  function Popped(p: Pool, m: Mem, block: bool): Mem
    requires m.aios != []
  {
    var h := m.aios[0];
    if block then m.(aios := m.aios[1..], story := m.story.(drained := m.story.drained + [h]))
    else m.(aios := m.aios[1..], popped := m.popped + [h],
            failure := if m.failure == 0 then CodeOf(p, h) else m.failure)
  }

  lemma DoneNotPending(p: Pool, h: Handle)
    requires IsDone(p, h)
    ensures !IsPending(p, h) && Submitted(p, h)
  {
  }

  lemma PopWaited(p: Pool, m: Mem)
    requires QueueOk(p, m, []) && m.aios != [] && IsDone(p, m.aios[0])
    ensures QueueOk(p, Popped(p, m, true), [])
  {
    hide FirstFailure, CodeOf, OpAt, SpaceOp, IsDone, IsPending, HasFailed;
    var h, n := m.aios[0], Popped(p, m, true);
    DoneNotPending(p, h);
    assert forall g :: g in m.aios <==> g == h || g in n.aios;
    assert forall g :: g in n.story.drained <==> g in m.story.drained || g == h;
    assert forall g :: g in Recorded(n.story) <==> g in Recorded(m.story) || g == h;
    assert StoryOk(p, n);
  }

  lemma PopLooked(p: Pool, m: Mem)
    requires QueueOk(p, m, []) && m.aios != [] && IsDone(p, m.aios[0])
    ensures QueueOk(p, Popped(p, m, false), [])
  {
    hide FirstFailure, CodeOf, OpAt, SpaceOp, IsDone, IsPending, HasFailed, Recorded;
    var h, n := m.aios[0], Popped(p, m, false);
    DoneNotPending(p, h);
    FirstFailureAppend(p, m.popped, h);
    assert forall g :: g in m.aios <==> g == h || g in n.aios;
    assert forall g :: g in n.popped <==> g in m.popped || g == h;
    assert StoryOk(p, n);
  }

  lemma QueuePop(p: Pool, m: Mem, block: bool)
    requires QueueOk(p, m, []) && m.aios != [] && IsDone(p, m.aios[0])
    ensures var n := Popped(p, m, block);
            && QueueOk(p, n, [])
            && (if block then n.story.drained + n.aios == m.story.drained + m.aios
                else n.popped + n.aios == m.popped + m.aios)
  {
    hide QueueOk, CodeOf;
    assert m.aios == [m.aios[0]] + m.aios[1..];
    if block { PopWaited(p, m); } else { PopLooked(p, m); }
  }

  lemma InvPop(p: Pool, m: Mem, f: seq<Byte>, block: bool)
    requires Inv(p, m, []) && ContentOk(p, m, f) && m.aios != [] && IsDone(p, m.aios[0])
    ensures var n := Popped(p, m, block);
            && Inv(p, n, []) && ContentOk(p, n, f)
            && (if block then n.story.drained + n.aios == m.story.drained + m.aios
                else n.popped + n.aios == m.popped + m.aios)
  {
    hide FirstFailure, Clean, QueueOk, FirstObjectOk, CodeOf;
    QueuePop(p, m, block);
    FirstObjectIgnores(p, m, Popped(p, m, block));
  }

  lemma ContentXattrs(p: Pool, op: Op, m: Mem, f: seq<Byte>)
    requires op.SetXattrs? && ContentOk(p, m, f)
    ensures ContentOk(Enqueue(p, 0, op), m, f)
  {
    CleanEnqueue(p, 0, op);
    FinalQueued(At(p, 0), op);
  }

  /** Removing an object leaves the file alone when it holds no byte of it. */
  lemma ContentRemove(p: Pool, k: nat, m: Mem, f: seq<Byte>)
    requires |f| <= k * STRIPE && ContentOk(p, m, f)
    ensures ContentOk(Enqueue(p, k, Remove), m, f)
  {
    CleanEnqueue(p, k, Remove);
    assert forall i :: 0 <= i < |f| ==> i / STRIPE < k;
  }

  /** Writing the next piece of `d` turns the file with the first `w` bytes of `d` in place into the
      file with that piece in place as well. */
  lemma ContentWrite(p: Pool, m: Mem, f: seq<Byte>, off: nat, d: seq<Byte>, w: nat, e: Extent)
    requires off <= |f| && w < |d| && e == NextExtent(off + w, |d| - w)
    requires ContentOk(p, m, Splice(f, off, d[..w]))
    ensures ContentOk(Enqueue(p, e.stripe, Write(e.off, d[w..w + e.len])), m, Splice(f, off, d[..w + e.len]))
  {
    var op := Write(e.off, d[w..w + e.len]);
    var q := Enqueue(p, e.stripe, op);
    CleanEnqueue(p, e.stripe, op);
    if m.dense && !m.told && Clean(q) {
      FinalQueued(At(p, e.stripe), op);
      var g := Splice(f, off, d[..w + e.len]);
      forall i | 0 <= i < |g| ensures HasByte(Final(At(q, i / STRIPE)), i % STRIPE, g[i]) {
        WriteByte(p, f, off, d, w, e, i);
      }
    }
  }

  lemma WriteByte(p: Pool, f: seq<Byte>, off: nat, d: seq<Byte>, w: nat, e: Extent, i: nat)
    requires off <= |f| && w < |d| && e == NextExtent(off + w, |d| - w)
    requires Holds(p, Splice(f, off, d[..w]))
    requires i < |Splice(f, off, d[..w + e.len])|
    ensures HasByte(Final(At(Enqueue(p, e.stripe, Write(e.off, d[w..w + e.len])), i / STRIPE)), i % STRIPE,
                    Splice(f, off, d[..w + e.len])[i])
  {
    var op := Write(e.off, d[w..w + e.len]);
    var g0, g := Splice(f, off, d[..w]), Splice(f, off, d[..w + e.len]);
    FinalQueued(At(p, e.stripe), op);
    var before := Final(At(p, i / STRIPE));
    if off + w <= i < off + w + e.len {
      assert i / STRIPE == e.stripe && i % STRIPE == e.off + (i - off - w);
      assert g[i] == d[i - off] == op.bytes[i - off - w];
    } else {
      assert i < |g0| && g[i] == g0[i];
      assert HasByte(before, i % STRIPE, g0[i]);
      if i / STRIPE == e.stripe {
        assert !(e.off <= i % STRIPE < e.off + e.len);
      }
    }
  }

  // ---- the attributes of the first object ----

  /** The memory that an attribute update describes. */
  function Updated(m: Mem, op: Op): Mem
    requires op.SetXattrs?
  {
    m.(version := op.version,
       alloc := if op.alloc.Some? then op.alloc.value else m.alloc,
       size := if op.size.Some? then op.size.value else m.size,
       dirty := m.dirty && op.size.None?)
  }

  lemma XattrsQueued(p: Pool, m: Mem, op: Op)
    requires FirstObjectOk(p, m) && op.SetXattrs? && m.version < op.version
    requires op.alloc.Some? ==> op.alloc.value == m.alloc
    ensures FirstObjectOk(Enqueue(p, 0, op), Updated(m, op))
  {
    hide Ops, Numbered, StoredBy;
    AllocsQueued(At(p, 0), op);
    FinalQueued(At(p, 0), op);
    FirstCellNumbered(At(p, 0), m, op);
  }

  lemma FirstCellNumbered(c: Cell, m: Mem, op: Op)
    requires FirstCellOk(c, m) && (op.SetXattrs? ==> m.version < op.version)
    ensures StoredBy(Queued(c, op)) && Numbered(Ops(Queued(c, op)), if op.SetXattrs? then op.version else m.version)
  {
    hide Ops, Numbered;
    OpsQueued(c, op);
    StoredQueued(c, op);
    NumberedNext(Ops(c), m.version, op);
  }

  /** An attribute update that the client waited for is in place, or the attributes are as they were. */
  lemma XattrsWaited(p: Pool, q: Pool, m: Mem, op: Op)
    requires FirstObjectOk(p, m) && op.SetXattrs? && m.version < op.version
    requires PoolEvolves(Enqueue(p, 0, op), q) && IsDone(q, NextHandle(p, 0))
    ensures !HasFailed(q, NextHandle(p, 0)) ==> FirstObjectOk(q, Updated(m, op))
    ensures HasFailed(q, NextHandle(p, 0)) ==> FirstObjectOk(q, m.(version := op.version)) && !CellClean(At(q, 0))
  {
    hide Ops, StoredBy, Numbered, Final, Allocs, CellClean;
    var c, d := At(p, 0), At(q, 0);
    assert At(Enqueue(p, 0, op), 0) == Queued(c, op);
    assert Evolves(Queued(c, op), d);
    assert Moves(Queued(c, op), d);
    var e, fault := QueuedDrained(c, d, op);
    assert |e.done| == NextHandle(p, 0).n by { assert Moves(c, e); }
    FirstCellMoves(c, e, m);
    XattrsLanded(e, m, op, fault);
  }

  lemma XattrsLanded(e: Cell, m: Mem, op: Op, fault: Option<Fault>)
    requires FirstCellOk(e, m) && op.SetXattrs? && m.version < op.version && e.pending == []
    ensures var d := Land(Queued(e, op), fault);
            && |d.done| == |e.done| + 1
            && (fault.None? ==> d.done[|e.done|] == Landed(op) && FirstCellOk(d, Updated(m, op)))
            && (fault.Some? ==> d.done[|e.done|].Failed? && FirstCellOk(d, m.(version := op.version)) && !CellClean(d))
  {
    hide Numbered, StoredBy, Ops;
    var d := Land(Queued(e, op), fault);
    OpsQueued(e, op);
    LandOps(Queued(e, op), fault);
    NumberedNext(Ops(e), m.version, op);
    StoredQueued(e, op);
    LandStored(Queued(e, op), fault);
    assert d.pending == [] && PendingAllocs([]) == {};
    assert d.done[|e.done|] in d.done;
    if fault.None? && CellClean(d) {
      forall o | o in e.done ensures !o.Failed? { assert o in d.done; }
    }
  }

  lemma StoredQueued(c: Cell, op: Op)
    requires StoredBy(c)
    ensures StoredBy(Queued(c, op))
  {
  }

  // ---- no dangling extents ----

  lemma SteadyXattrs(p: Pool, m: Mem, op: Op)
    requires Steady(p) && Shows(p, m.alloc) && op.SetXattrs?
    requires op.alloc.Some? ==> m.alloc <= op.alloc.value
    ensures Steady(Enqueue(p, 0, op))
  {
    AllocsQueued(At(p, 0), op);
    assert m.alloc in Allocs(At(p, 0));
    assert forall j :: j != 0 ==> At(Enqueue(p, 0, op), j) == At(p, j);
  }

  /** Lowering the allocation is safe once the objects above it are gone. */
  lemma SteadyShrink(p: Pool, m: Mem, op: Op, prune: nat)
    requires Steady(p) && Shows(p, m.alloc) && op.SetXattrs? && op.alloc.Some?
    requires op.alloc.value % STRIPE == 0
    requires prune == if op.alloc.value < STRIPE then STRIPE else op.alloc.value
    requires forall k :: prune <= k * STRIPE < m.alloc ==> !Occupied(At(p, k))
    ensures Steady(Enqueue(p, 0, op))
  {
    AllocsQueued(At(p, 0), op);
    assert m.alloc in Allocs(At(p, 0));
    forall k | k > 0 && Occupied(At(p, k)) ensures k * STRIPE < op.alloc.value {
      assert k * STRIPE < m.alloc;
    }
    assert forall j :: j != 0 ==> At(Enqueue(p, 0, op), j) == At(p, j);
  }

  /** A write below the allocation that the attributes show, or into the first object, is safe. */
  lemma SteadyWrite(p: Pool, a: nat, k: nat, op: Op)
    requires Shows(p, a) && op.Write?
    ensures Shows(Enqueue(p, k, op), a)
    ensures Steady(p) && (k == 0 || k * STRIPE < a) ==> Steady(Enqueue(p, k, op))
  {
    AllocsQueued(At(p, k), op);
    assert forall j :: j != k ==> At(Enqueue(p, k, op), j) == At(p, j);
  }

  lemma SteadyRemove(p: Pool, k: nat)
    requires Steady(p) && k > 0
    ensures Steady(Enqueue(p, k, Remove))
  {
    OccupiedQueued(At(p, k), Remove);
    assert forall j :: j != k ==> At(Enqueue(p, k, Remove), j) == At(p, j);
  }

  lemma FirstObjectOther(p: Pool, m: Mem, k: nat, op: Op)
    requires FirstObjectOk(p, m) && (k > 0 || op.Write?)
    ensures FirstObjectOk(Enqueue(p, k, op), m)
  {
    hide Ops, StoredBy, Numbered;
    if k == 0 { FirstCellNumbered(At(p, 0), m, op); }
    AllocsQueued(At(p, k), op);
    FinalQueued(At(p, k), op);
  }

  // ---- whole steps ----

  /** Operations that nobody waits for any more do no harm once an error is returned. */
  lemma InvAbandon(p: Pool, m: Mem, extra: seq<Handle>, f: seq<Byte>)
    requires Inv(p, m, extra)
    ensures Inv(p, Abandoned(m, extra), []) && ContentOk(p, Abandoned(m, extra), f)
  {
    hide QueueOk, FirstObjectOk;
    QueueAbandon(p, m, extra);
    FirstObjectIgnores(p, m, Abandoned(m, extra));
  }

  lemma InvTold(p: Pool, m: Mem, f: seq<Byte>)
    requires Inv(p, m, [])
    ensures Inv(p, m.(told := true), []) && ContentOk(p, m.(told := true), f)
  {
    hide Standing;
    InvAbandon(p, m, [], f);
    assert m.story.strays + [] == m.story.strays;
    assert Abandoned(m, []) == m.(told := true);
  }

  /** Queueing an attribute update and going on. */
  lemma XattrsAsync(p: Pool, q: Pool, m: Mem, op: Op, f: seq<Byte>)
    requires Inv(p, m, []) && ContentOk(p, m, f) && op.SetXattrs? && m.version < op.version
    requires op.alloc.Some? ==> op.alloc.value == m.alloc && !m.bounded
    requires m.bounded ==> Updated(m, op).size <= m.alloc
    requires PoolEvolves(Enqueue(p, 0, op), q)
    ensures var n := Updated(m, op).(aios := m.aios + [NextHandle(p, 0)]);
            Inv(q, n, []) && ContentOk(q, n, f)
  {
    hide Evolves, Evolution, Steadiness, FirstObjectOk, QueueOk;
    var p' := Enqueue(p, 0, op);
    var n := Updated(m, op).(aios := m.aios + [NextHandle(p, 0)]);
    XattrsQueued(p, m, op);
    FirstObjectIgnores(p', Updated(m, op), n);
    QueuePush(p, 0, op, m);
    QueueIgnores(p', m.(aios := m.aios + [NextHandle(p, 0)]), n, []);
    ContentXattrs(p, op, m, f);
    if Safe(m) {
      ShowsMemory(p, m, []);
      SteadyXattrs(p, m, op);
    }
    InvEvolves(p', q, n, [], f);
  }

  lemma FirstObjectIgnores(p: Pool, m: Mem, n: Mem)
    requires FirstObjectOk(p, m)
    requires n.alloc == m.alloc && n.version == m.version && n.dirty == m.dirty && n.size == m.size
    requires n.landed ==> m.landed
    ensures FirstObjectOk(p, n)
  {
    hide Ops, StoredBy, Numbered, Allocs, Final, CellClean;
  }

  lemma FirstObjectFailed(p: Pool, m: Mem, n: Mem)
    requires FirstObjectOk(p, m) && !CellClean(At(p, 0)) && n.version == m.version && !n.landed
    ensures FirstObjectOk(p, n)
  {
    hide Ops, StoredBy, Numbered, Allocs, Final, CellClean;
  }

  lemma QueueIgnores(p: Pool, m: Mem, n: Mem, extra: seq<Handle>)
    requires QueueOk(p, m, extra)
    requires n == m.(size := n.size, alloc := n.alloc, version := n.version, dirty := n.dirty,
                     bounded := n.bounded, dense := n.dense)
    requires n.bounded ==> m.bounded
    ensures QueueOk(p, n, extra)
  {
    hide FirstFailure, NoSpace, AllSpace, AllDone, AllSubmitted, NoneFailed;
  }

  /** The memory after an attribute update that was waited for, however it ended. */
  function Renewed(q: Pool, m: Mem, op: Op, h: Handle): Mem
    requires op.SetXattrs?
  {
    Waited(q, Updated(m, op), [h])
  }

  /** Queueing an attribute update and waiting for it. */
  lemma XattrsSync(p: Pool, q: Pool, m: Mem, op: Op, f: seq<Byte>)
    requires Inv(p, m, []) && ContentOk(p, m, f) && op.SetXattrs? && m.version < op.version
    requires op.alloc.Some? && AllocOk(op.alloc.value)
    requires PoolEvolves(Enqueue(p, 0, op), q) && IsDone(q, NextHandle(p, 0))
    requires m.bounded ==> Updated(m, op).size <= Updated(m, op).alloc
    requires Safe(m) ==> Steady(q)
    ensures var n := Renewed(q, m, op, NextHandle(p, 0));
            Inv(q, n, []) && ContentOk(q, n, f)
    ensures HasFailed(q, NextHandle(p, 0)) && m.landed ==> Shows(q, m.alloc)
  {
    hide Evolves, Evolution, Steadiness, QueueOk, AttributesMatch, Final, Allocs, CellClean, Ops, StoredBy, Numbered;
    var p', h := Enqueue(p, 0, op), NextHandle(p, 0);
    var u, n := Updated(m, op), Renewed(q, m, op, h);
    XattrsWaited(p, q, m, op);
    QueueExtra(p, 0, op, m, []);
    assert [] + [h] == [h];
    QueueEvolves(p', q, m, [h]);
    QueueIgnores(q, m, u, [h]);
    QueueSettle(q, u, [h]);
    ContentXattrs(p, op, m, f);
    ContentEvolves(p', q, m, f);
    ContentIgnores(q, m, n, f);
    if HasFailed(q, h) {
      FirstObjectFailed(q, m.(version := op.version), n);
    } else {
      FirstObjectIgnores(q, u, n);
    }
  }

  /** Queueing the removal of an object that holds nothing of the file. */
  lemma RemoveSubmitted(p: Pool, q: Pool, m: Mem, k: nat, extra: seq<Handle>, f: seq<Byte>)
    requires Inv(p, m, extra) && ContentOk(p, m, f) && k > 0 && |f| <= k * STRIPE
    requires PoolEvolves(Enqueue(p, k, Remove), q)
    ensures Inv(q, m, extra + [NextHandle(p, k)]) && ContentOk(q, m, f)
  {
    hide Evolves, Evolution, Steadiness, FirstObjectOk, QueueOk;
    var p' := Enqueue(p, k, Remove);
    FirstObjectOther(p, m, k, Remove);
    QueueExtra(p, k, Remove, m, extra);
    ContentRemove(p, k, m, f);
    if Safe(m) { SteadyRemove(p, k); }
    InvEvolves(p', q, m, extra + [NextHandle(p, k)], f);
  }

  /** `hs` are the removals of the objects from byte offset `from` on, each the last operation queued
      on its object. */
  ghost predicate Removals(p: Pool, hs: seq<Handle>, from: nat) {
    forall i :: 0 <= i < |hs| ==> Removal(p, hs[i], from / STRIPE + i)
  }

  predicate Removal(p: Pool, h: Handle, k: nat) {
    h.stripe == k && Doomed(At(p, k)) && h.n + 1 == |At(p, k).done| + |At(p, k).pending|
  }

  lemma RemovalsEvolve(p: Pool, q: Pool, hs: seq<Handle>, from: nat)
    requires Removals(p, hs, from) && PoolEvolves(p, q)
    ensures Removals(q, hs, from)
  {
    forall i | 0 <= i < |hs| ensures Removal(q, hs[i], from / STRIPE + i) {
      assert Removal(p, hs[i], from / STRIPE + i);
      assert Evolves(At(p, hs[i].stripe), At(q, hs[i].stripe));
    }
  }

  lemma RemovalsExtend(p: Pool, q: Pool, hs: seq<Handle>, from: nat)
    requires Removals(p, hs, from)
    requires PoolEvolves(Enqueue(p, from / STRIPE + |hs|, Remove), q)
    ensures Removals(q, hs + [NextHandle(p, from / STRIPE + |hs|)], from)
  {
    hide Evolves, Evolution;
    var k := from / STRIPE + |hs|;
    var p', gs := Enqueue(p, k, Remove), hs + [NextHandle(p, k)];
    forall i | 0 <= i < |gs| ensures Removal(p', gs[i], from / STRIPE + i) {
      if i < |hs| { assert Removal(p, hs[i], from / STRIPE + i); }
    }
    RemovalsEvolve(p', q, gs, from);
  }

  /** A removal that ended without failing leaves no object and nothing queued on it. */
  lemma RemovalDone(p: Pool, h: Handle, k: nat)
    requires Removal(p, h, k) && IsDone(p, h) && !HasFailed(p, h)
    ensures At(p, k).pending == [] && !Occupied(At(p, k))
  {
  }

  lemma GoneEvolves(p: Pool, q: Pool, k: nat)
    requires !Occupied(At(p, k)) && PoolEvolves(p, q)
    ensures !Occupied(At(q, k))
  {
    assert Evolves(At(p, k), At(q, k));
  }

  /** Objects from offset `from` up to stripe `upto` are gone. */
  ghost predicate Gone(p: Pool, from: nat, upto: nat) {
    forall k :: from / STRIPE <= k < upto ==> !Occupied(At(p, k))
  }

  /** Removals that have been waited for. */
  lemma InvWaited(p: Pool, m: Mem, extra: seq<Handle>, f: seq<Byte>)
    requires Inv(p, m, extra) && ContentOk(p, m, f) && AllDone(p, extra)
    ensures Inv(p, Waited(p, m, extra), []) && ContentOk(p, Waited(p, m, extra), f)
  {
    hide FirstObjectOk, Steadiness, QueueOk, AllDone;
    QueueSettle(p, m, extra);
    FirstObjectIgnores(p, m, Waited(p, m, extra));
    ContentIgnores(p, m, Waited(p, m, extra), f);
  }

  lemma InvAlloc(p: Pool, m: Mem, extra: seq<Handle>)
    requires Inv(p, m, extra)
    ensures AllocOk(m.alloc) && (m.bounded ==> m.size <= m.alloc)
  {
  }

  lemma RemovalsNone(p: Pool, from: nat)
    ensures Removals(p, [], from)
  {
  }

  lemma DoneEvolves(p: Pool, q: Pool, hs: seq<Handle>)
    requires PoolEvolves(p, q) && AllDone(p, hs)
    ensures AllDone(q, hs)
  {
    hide Evolution;
    forall h | h in hs ensures IsDone(q, h) { EvolvesHandle(p, q, h); }
  }

  /** With all removals ended nothing is queued on their objects; with none failed they are gone. */
  lemma RemovalsDone(p: Pool, hs: seq<Handle>, from: nat)
    requires Removals(p, hs, from) && AllDone(p, hs)
    ensures Still(p, from, from / STRIPE + |hs|)
    ensures NoneFailed(p, hs) ==> Gone(p, from, from / STRIPE + |hs|)
  {
    hide Occupied, Doomed;
    forall k | from / STRIPE <= k < from / STRIPE + |hs|
      ensures At(p, k).pending == [] && (NoneFailed(p, hs) ==> !Occupied(At(p, k)))
    {
      var i := k - from / STRIPE;
      assert Removal(p, hs[i], from / STRIPE + i) && hs[i] in hs;
      if NoneFailed(p, hs) { RemovalDone(p, hs[i], k); }
    }
  }

  /** Nothing is queued on the objects from offset `from` up to stripe `upto`. */
  predicate Still(p: Pool, from: nat, upto: nat) {
    forall k :: from / STRIPE <= k < upto ==> At(p, k).pending == []
  }

  /** What is still does not change, whatever is queued on the first object. */
  lemma StillGone(p: Pool, q: Pool, op: Op, from: nat, upto: nat)
    requires Still(p, from, upto) && STRIPE <= from && PoolEvolves(Enqueue(p, 0, op), q)
    ensures Gone(q, from, upto) <==> Gone(p, from, upto)
    ensures forall k :: from / STRIPE <= k < upto ==> At(q, k) == At(p, k)
  {
    hide Evolution, Evolves, Occupied;
    forall k | from / STRIPE <= k < upto ensures At(q, k) == At(p, k) {
      assert At(Enqueue(p, 0, op), k) == At(p, k);
      EvolvesAt(Enqueue(p, 0, op), q, k);
    }
  }

  /** An object that stays behind dangles as soon as the allocation is about to be lowered below it. */
  lemma LeftBehind(p: Pool, q: Pool, op: Op, from: nat, upto: nat)
    requires Still(p, from, upto) && !Gone(p, from, upto) && STRIPE <= from && from % STRIPE == 0
    requires PoolEvolves(Enqueue(p, 0, op), q) && op.SetXattrs? && op.alloc.Some? && op.alloc.value <= from
    requires op in At(q, 0).pending
    ensures !NoDangling(q)
  {
    hide Evolution, Evolves, Occupied;
    StillGone(p, q, op, from, upto);
    var k :| from / STRIPE <= k < upto && Occupied(At(p, k));
    var i :| 0 <= i < |At(q, 0).pending| && At(q, 0).pending[i] == op;
    assert op.alloc.value in PendingAllocs(At(q, 0).pending);
    assert k > 0 && Occupied(At(q, k)) && op.alloc.value in Allocs(At(q, 0));
    assert op.alloc.value <= k * STRIPE;
  }

  lemma FreshSubmitted(p: Pool, q: Pool, k: nat, op: Op)
    requires PoolEvolves(Enqueue(p, k, op), q)
    ensures Submitted(q, NextHandle(p, k))
  {
    hide Evolution;
    assert IsPending(Enqueue(p, k, op), NextHandle(p, k));
    EvolvesHandle(Enqueue(p, k, op), q, NextHandle(p, k));
  }

  lemma UpdatedShrink(m: Mem, op: Op)
    requires op.SetXattrs? && op.alloc.Some? && op.size.None?
    ensures Updated(m, op) == m.(alloc := op.alloc.value, version := op.version)
  {
  }

  lemma SteadyPruned(p: Pool, m: Mem, op: Op, prune: nat, n: nat)
    requires Steady(p) && Shows(p, m.alloc) && op.SetXattrs? && op.alloc.Some? && op.alloc.value % STRIPE == 0
    requires prune == if op.alloc.value < STRIPE then STRIPE else op.alloc.value
    requires Gone(p, prune, prune / STRIPE + n) && prune + n * STRIPE == m.alloc
    ensures Steady(Enqueue(p, 0, op))
  {
    hide Steadiness, Occupied;
    assert prune % STRIPE == 0;
    forall k: nat | prune <= k * STRIPE < m.alloc ensures !Occupied(At(p, k)) {
      assert prune / STRIPE <= k < prune / STRIPE + n;
    }
    SteadyShrink(p, m, op, prune);
  }

  lemma InvWeaken(p: Pool, m: Mem, n: Mem, f: seq<Byte>)
    requires Inv(p, m, []) && ContentOk(p, m, f)
    requires n == m.(bounded := n.bounded, dense := n.dense)
    requires (n.bounded ==> m.bounded) && (n.dense ==> m.dense)
    ensures Inv(p, n, []) && ContentOk(p, n, f)
  {
    hide QueueOk, FirstObjectOk, Clean, Steadiness;
    QueueIgnores(p, m, n, []);
    FirstObjectIgnores(p, m, n);
  }

  lemma ContentPrefix(p: Pool, m: Mem, f: seq<Byte>, g: seq<Byte>)
    requires ContentOk(p, m, f) && (m.dense ==> g <= f)
    ensures ContentOk(p, m, g)
  {
    if m.dense && !m.told && Clean(p) {
      forall i | 0 <= i < |g| ensures HasByte(Final(At(p, i / STRIPE)), i % STRIPE, g[i]) {
        assert g[i] == f[i];
      }
    }
  }

  lemma SteadyUpdate(p: Pool, m: Mem, op: Op)
    requires Inv(p, m, []) && Safe(m) && op.SetXattrs?
    requires op.alloc.Some? ==> m.alloc <= op.alloc.value
    ensures Steady(Enqueue(p, 0, op))
  {
    hide Steadiness;
    ShowsMemory(p, m, []);
    SteadyXattrs(p, m, op);
  }

  /** What a report leaves behind: an empty window and no remembered failure. */
  function Reset(m: Mem): Mem {
    m.(popped := [], failure := 0, story := m.story.(reported := m.story.reported + m.popped))
  }

  lemma QueueReport(p: Pool, m: Mem)
    requires QueueOk(p, m, []) && (m.failure != 0 ==> m.told)
    ensures QueueOk(p, Reset(m), [])
  {
    hide CodeOf, FirstFailure, OpAt, SpaceOp, IsDone, IsPending, HasFailed;
    var n := Reset(m);
    FirstFailureIsFirst(p, m.popped);
    assert FirstFailure(p, []) == 0 by { FirstFailureIsFirst(p, []); }
    assert forall h :: h in n.story.reported <==> h in m.story.reported || h in m.popped;
    assert forall h :: h in Recorded(n.story) <==> h in Recorded(m.story) || h in m.popped;
    forall h | h in m.popped && m.failure == 0 ensures !HasFailed(p, h) { FailedCode(p, h); }
    assert StoryOk(p, n);
  }

  lemma FailedCode(p: Pool, h: Handle)
    ensures CodeOf(p, h) == 0 ==> !HasFailed(p, h)
  {
  }

  lemma InvReport(p: Pool, m: Mem, f: seq<Byte>)
    requires Inv(p, m, []) && ContentOk(p, m, f) && (m.failure != 0 ==> m.told)
    ensures Inv(p, Reset(m), []) && ContentOk(p, Reset(m), f)
  {
    hide QueueOk, FirstObjectOk, SpaceOk, Content;
    QueueReport(p, m);
    FirstObjectIgnores(p, m, Reset(m));
    SpaceIgnores(p, m, Reset(m));
    ContentIgnores(p, m, Reset(m), f);
  }

  lemma SpaceIgnores(p: Pool, m: Mem, n: Mem)
    requires SpaceOk(p, m) && n.alloc == m.alloc && n.size == m.size && n.bounded == m.bounded && n.landed == m.landed
    ensures SpaceOk(p, n)
  {
  }

  lemma ContentIgnores(p: Pool, m: Mem, n: Mem, f: seq<Byte>)
    requires ContentOk(p, m, f) && n.told == m.told && n.dense == m.dense
    ensures ContentOk(p, n, f)
  {
  }

  /** Nothing is in flight. */
  ghost predicate Quiet(p: Pool) {
    forall k :: At(p, k).pending == []
  }

  /** Nothing is in flight, and what is stored is what memory says. */
  ghost predicate AtRest(p: Pool, size: nat, alloc: nat, version: nat) {
    && Quiet(p)
    && At(p, 0).obj.Some? && At(p, 0).obj.value.xattrs == Xattrs(size, alloc, version)
  }

  predicate StoresVersion(p: Pool, version: nat) {
    At(p, 0).obj.Some? && At(p, 0).obj.value.xattrs.version == version
  }

  /** Nothing failed exactly if nothing did that the client still knows of, or knew of. */
  lemma FailuresKnown(p: Pool, m: Mem, extra: seq<Handle>)
    requires Inv(p, m, extra)
    ensures Clean(p) <==> NoneFailed(p, m.aios + extra + m.popped + Recorded(m.story))
  {
    hide FirstFailure, FirstObjectOk, SpaceOk, StoryOk, Recorded;
    if Clean(p) {
      CleanNoneFailed(p, m.aios + extra + m.popped + Recorded(m.story));
    } else {
      var k :| !CellClean(At(p, k));
      var o :| o in At(p, k).done && o.Failed?;
      var n :| 0 <= n < |At(p, k).done| && At(p, k).done[n] == o;
      assert HasFailed(p, Handle(k, n));
    }
  }

  /** A failure that is remembered is that of an operation which failed. */
  lemma FailureUnclean(p: Pool, m: Mem)
    requires Inv(p, m, []) && m.bounded
    ensures m.failure != 0 ==> !Clean(p)
  {
    hide FirstFailure, FirstObjectOk, SpaceOk, StoryOk, Accounted;
    FirstFailureIsFirst(p, m.popped);
    if Clean(p) {
      CleanNoneFailed(p, m.popped);
      forall h | h in m.popped ensures CodeOf(p, h) == 0 { OpDone(p, h); }
    }
  }

  lemma CleanNoneFailed(p: Pool, hs: seq<Handle>)
    requires Clean(p)
    ensures NoneFailed(p, hs)
  {
    forall h | h in hs ensures !HasFailed(p, h) {
      assert CellClean(At(p, h.stripe));
      if IsDone(p, h) { assert At(p, h.stripe).done[h.n] in At(p, h.stripe).done; }
    }
  }

  /** With an empty queue, nothing is in flight exactly if every abandoned removal has ended.  If moreover no
      operation failed, what is stored is what memory says, and the bytes of the file. */
  lemma NothingLost(p: Pool, m: Mem, f: seq<Byte>)
    requires Inv(p, m, []) && ContentOk(p, m, f) && m.aios == []
    ensures Quiet(p) <==> AllDone(p, m.story.strays)
    ensures !m.told ==> Quiet(p)
    ensures Quiet(p) ==> (StoresVersion(p, m.version) <==> !LastUpdateFailed(At(p, 0)))
    ensures Quiet(p) && Clean(p) && !m.dirty ==> AtRest(p, m.size, m.alloc, m.version)
    ensures Quiet(p) && Clean(p) && m.dense && !m.told ==> Stores(p, f)
  {
    hide SpaceOk, FirstFailure, Ops, StoredBy, Numbered, LastUpdateFailed, SpaceOp, OpAt;
    if AllDone(p, m.story.strays) {
      forall k ensures At(p, k).pending == [] {
        assert !IsPending(p, Handle(k, |At(p, k).done|));
      }
    } else {
      var h :| h in m.story.strays && !IsDone(p, h);
      assert At(p, h.stripe).pending != [];
    }
    if Quiet(p) {
      assert forall k :: Final(At(p, k)) == At(p, k).obj;
      VersionExact(At(p, 0), m);
    }
    if Clean(p) { assert CellClean(At(p, 0)); }
  }

  /** When a flush returns 0 and no call ever returned an error, what may have failed is what was waited for. */
  lemma CleanExact(p: Pool, m: Mem)
    requires Inv(p, m, []) && m.aios == [] && m.popped == [] && !m.told
    ensures Clean(p) <==> NoneFailed(p, m.story.drained + m.story.awaited)
  {
    hide SpaceOk, FirstObjectOk, FirstFailure, HasFailed, Clean;
    FailuresKnown(p, m, []);
    assert m.story.strays == [] && NoneFailed(p, m.story.reported);
    assert forall h :: h in m.aios + [] + m.popped + Recorded(m.story)
              <==> h in m.story.reported || h in m.story.drained + m.story.awaited;
  }

  /** None of the operations that were waited for failed exactly if no removal and no update of the allocation
      failed, as long as every request fitted and no removal was abandoned. */
  lemma LandedExact(p: Pool, m: Mem)
    requires Inv(p, m, [])
    ensures SpaceClean(p) ==> m.landed
    ensures m.landed && m.bounded && m.story.strays == [] ==> SpaceClean(p)
  {
    hide SpaceOk, FirstObjectOk, FirstFailure, SpaceOp, OpAt;
    forall h | h in m.story.awaited && SpaceClean(p) ensures !HasFailed(p, h) {
      SpaceFailed(p, h);
    }
    if m.landed && m.bounded && m.story.strays == [] {
      forall k, o | o in At(p, k).done && o.Failed? ensures !SpaceOp(o.op) {
        var n :| 0 <= n < |At(p, k).done| && At(p, k).done[n] == o;
        OpDone(p, Handle(k, n));
        assert HasFailed(p, Handle(k, n));
      }
    }
  }

  lemma OpDone(p: Pool, h: Handle)
    requires IsDone(p, h)
    ensures OpAt(p, h) == Subject(At(p, h.stripe).done[h.n])
  {
  }

  lemma SpaceFailed(p: Pool, h: Handle)
    requires SpaceClean(p) && Submitted(p, h) && SpaceOp(OpAt(p, h))
    ensures !HasFailed(p, h)
  {
    hide SpaceOp;
    if IsDone(p, h) {
      OpDone(p, h);
      assert At(p, h.stripe).done[h.n] in At(p, h.stripe).done;
    }
  }

  /** Queueing a write. */
  lemma WriteSubmitted(p: Pool, q: Pool, m: Mem, k: nat, op: Op)
    requires Inv(p, m, []) && op.Write? && (Safe(m) ==> Steady(q))
    requires PoolEvolves(Enqueue(p, k, op), q)
    ensures Inv(q, m.(aios := m.aios + [NextHandle(p, k)]), [])
  {
    hide Evolution, Evolves, Steadiness, FirstObjectOk, QueueOk, Content;
    var p', n := Enqueue(p, k, op), m.(aios := m.aios + [NextHandle(p, k)]);
    FirstObjectOther(p, m, k, op);
    FirstObjectIgnores(p', m, n);
    QueuePush(p, k, op, m);
    FirstObjectEvolves(p', q, n);
    QueueEvolves(p', q, n, []);
  }

  lemma ContentNone(p: Pool, m: Mem)
    requires m.told || !m.dense
    ensures forall f :: ContentOk(p, m, f)
  {
  }

  /** A write queued beyond the allocation that the attributes show dangles. */
  lemma Dangles(p: Pool, a: nat, k: nat, op: Op)
    requires Shows(p, a) && k > 0 && op.Write? && op in At(p, k).pending && a <= k * STRIPE
    ensures !NoDangling(p)
  {
    var i :| 0 <= i < |At(p, k).pending| && At(p, k).pending[i] == op;
    assert a in Allocs(At(p, 0)) && Occupied(At(p, k));
  }

  // ---- removal of the whole file, and handing it over ----

  lemma SteadyAlone(p: Pool, op: Op)
    requires forall k :: k > 0 ==> !Occupied(At(p, k))
    ensures Steady(Enqueue(p, 0, op))
  {
    assert forall k :: k > 0 ==> At(Enqueue(p, 0, op), k) == At(p, k);
  }

  /** Removing the first object last leaves nothing at all. */
  lemma AllGone(p: Pool, q: Pool)
    requires forall k :: k > 0 ==> !Occupied(At(p, k))
    requires PoolEvolves(Enqueue(p, 0, Remove), q) && IsDone(q, NextHandle(p, 0)) && !HasFailed(q, NextHandle(p, 0))
    ensures forall k :: !Occupied(At(q, k))
  {
    hide Evolution, Evolves, Occupied;
    var p' := Enqueue(p, 0, Remove);
    forall k ensures !Occupied(At(q, k)) {
      if k > 0 {
        assert At(p', k) == At(p, k);
        GoneEvolves(p', q, k);
      } else {
        EvolvesAt(p', q, 0);
        RemovalDone(q, NextHandle(p, 0), 0);
      }
    }
  }

  /** A pool in which one client has left the file `f` for the next one. */
  ghost predicate Handover(p: Pool, f: seq<Byte>) {
    && At(p, 0).obj.Some?
    && var x := At(p, 0).obj.value.xattrs;
       && AtRest(p, |f|, x.alloc, x.version) && Clean(p)
       && StoredBy(At(p, 0)) && Numbered(Ops(At(p, 0)), x.version)
       && Stores(p, f) && Steady(p)
       && AllocOk(x.alloc) && |f| <= x.alloc <= 2 * MIN_GROWTH + RoundUp(|f|)
  }

  function StoredAlloc(p: Pool): nat {
    if At(p, 0).obj.Some? then At(p, 0).obj.value.xattrs.alloc else 0
  }

  /** A file that was flushed without any error is fit to be handed over. */
  lemma FlushedIsHandover(p: Pool, m: Mem, f: seq<Byte>)
    requires Inv(p, m, []) && Tight(m) && |f| == m.size && !m.told && m.bounded
    requires AtRest(p, m.size, m.alloc, m.version) && Clean(p) && Stores(p, f)
    ensures Handover(p, f) && StoredAlloc(p) == m.alloc
  {
    hide Ops, StoredBy, Numbered, Clean, Quiet, FirstFailure;
    CleanNoneFailed(p, m.story.awaited);
  }

  /** The first object as it is created. */
  const CREATED: Cell := Cell(Some(FRESH), [], [Landed(SetXattrs(Some(0), Some(0), 0))])

  /** A file that was just created is the empty file. */
  lemma CreatedIsHandover(p: Pool)
    requires p == map[0 := CREATED]
    ensures Handover(p, [])
  {
    assert LastLanded(CREATED.done, 0) && LastUpdate(Ops(CREATED), 0);
    assert Allocs(At(p, 0)) == {0};
    assert forall k :: k > 0 ==> !Occupied(At(p, k));
  }

  /** A pool at rest does not move by itself. */
  lemma RestStays(p: Pool, q: Pool, k: nat)
    requires PoolEvolves(p, q) && At(p, k).pending == []
    ensures At(q, k) == At(p, k)
  {
    EvolvesAt(p, q, k);
  }

  lemma HandoverStays(p: Pool, q: Pool, f: seq<Byte>)
    requires Handover(p, f) && PoolEvolves(p, q)
    ensures Handover(q, f) && StoredAlloc(q) == StoredAlloc(p)
  {
    hide Evolution, Evolves, Steadiness, RoundUp;
    forall k ensures At(q, k) == At(p, k) { RestStays(p, q, k); }
    SteadyEvolves(p, q);
  }

  /** What the next client reads from the attributes of the first object. */
  function Opened(x: Xattrs, dirty: bool): Mem {
    Mem(x.size, x.alloc, x.version, dirty, [], 0, [], UNTOLD, true, false, true, true)
  }

  /** The next client resumes exactly the file that was left. */
  lemma Resumes(p: Pool, f: seq<Byte>, dirty: bool)
    requires Handover(p, f)
    ensures var m := Opened(At(p, 0).obj.value.xattrs, dirty);
            Inv(p, m, []) && ContentOk(p, m, f) && Tight(m) && m.size == |f|
  {
    hide Steadiness, RoundUp;
    var m := Opened(At(p, 0).obj.value.xattrs, dirty);
    assert QueueOk(p, m, []) by {
      forall h ensures !IsPending(p, h) && !HasFailed(p, h) {
        assert At(p, h.stripe).pending == [];
        CleanNoneFailed(p, [h]);
        assert h in [h];
      }
    }
    assert PendingAllocs([]) == {};
    assert forall k :: Final(At(p, k)) == At(p, k).obj;
  }
}
