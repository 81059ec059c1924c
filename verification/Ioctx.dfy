/** The client's handle on the pool.  Between any two of its calls the cluster lands queued
    operations as it pleases, some of them failing. */
module RadosClient {
  import opened Wrappers
  import opened Rados
  import opened Striping

  /** No dangling extents now, nor after anything queued has landed. */
  ghost predicate Steady(p: Pool) {
    Steadiness(p) == Sound
  }

  ghost function Steadiness(p: Pool): Verdict {
    if && NoDangling(p)
       && ((At(p, 0).obj.Some? && Remove !in At(p, 0).pending) || forall k :: k > 0 ==> !Occupied(At(p, k)))
    then Sound else Broken
  }

  /** A cluster that was steady stays steady whatever lands: crash safety needs no client step. */
  lemma SteadyEvolves(p: Pool, q: Pool)
    requires Steady(p) && PoolEvolves(p, q)
    ensures Steady(q)
  {
    hide Evolution, Evolves, Allocs, Occupied;
    EvolvesAt(p, q, 0);
    forall k ensures Occupied(At(q, k)) ==> Occupied(At(p, k)) { EvolvesAt(p, q, k); }
    forall k, a | k > 0 && Occupied(At(q, k)) && a in Allocs(At(q, 0)) ensures k * STRIPE < a {
      assert Occupied(At(p, k)) && a in Allocs(At(p, 0));
    }
  }

  lemma SteadyMeans(p: Pool)
    requires Steady(p)
    ensures NoDangling(p)
  {
  }

  function NoFaults(n: nat): (fs: seq<Option<Fault>>)
    ensures |fs| == n
  {
    seq(n, _ => None)
  }

  lemma {:induction false} AllSurvive(ops: seq<Op>, n: nat)
    requires n <= |ops|
    ensures Survivors(ops, NoFaults(n)) == ops[..n]
    decreases n
  {
    if n > 0 {
      assert NoFaults(n)[1..] == NoFaults(n - 1);
      AllSurvive(ops[1..], n - 1);
      assert ops[..n] == [ops[0]] + ops[1..][..n - 1];
    }
  }

  /** Any queued operation may be the last one to land before a crash. */
  lemma MayLand(c: Cell, i: nat) returns (d: Cell)
    requires i < |c.pending|
    ensures Evolves(c, d) && exists o :: d.obj == Apply(o, c.pending[i])
  {
    hide Apply, Moves;
    var fs := NoFaults(i + 1);
    d := LandAll(c, fs);
    LandAllSurvivors(c, fs);
    AllSurvive(c.pending, i + 1);
    assert c.pending[..i + 1] == c.pending[..i] + [c.pending[i]];
    ApplyAllAppend(c.obj, c.pending[..i], c.pending[i]);
  }

  /** An object lies beyond the allocation that is stored. */
  ghost predicate DanglesNow(p: Pool) {
    exists k :: k > 0 && At(p, k).obj.Some? && At(p, 0).obj.Some? && At(p, 0).obj.value.xattrs.alloc <= k * STRIPE
  }

  lemma MayExist(c: Cell) returns (d: Cell)
    requires Occupied(c)
    ensures Evolves(c, d) && d.obj.Some?
  {
    hide Moves;
    if c.obj.Some? {
      EvolvesRefl(c);
      d := c;
    } else {
      var i :| 0 <= i < |c.pending| && !c.pending[i].Remove?;
      d := MayLand(c, i);
    }
  }

  lemma MayShow(c: Cell, a: nat) returns (d: Cell)
    requires a in Allocs(c)
    ensures Evolves(c, d) && d.obj.Some? && d.obj.value.xattrs.alloc == a
  {
    hide Moves;
    if c.obj.Some? && c.obj.value.xattrs.alloc == a {
      EvolvesRefl(c);
      d := c;
    } else {
      assert a in PendingAllocs(c.pending);
      var i :| 0 <= i < |c.pending| && c.pending[i].SetXattrs? && c.pending[i].alloc.Some? && c.pending[i].alloc.value == a;
      d := MayLand(c, i);
    }
  }

  lemma MayDangle(p: Pool) returns (q: Pool)
    requires !NoDangling(p)
    ensures PoolEvolves(p, q) && DanglesNow(q)
  {
    hide Evolves, Moves, Occupied, Allocs;
    var k, a :| k > 0 && Occupied(At(p, k)) && a in Allocs(At(p, 0)) && a <= k * STRIPE;
    var c := MayShow(At(p, 0), a);
    var d := MayExist(At(p, k));
    q := p[0 := c][k := d];
    forall j ensures Evolves(At(p, j), At(q, j)) {
      if j != 0 && j != k { EvolvesRefl(At(p, j)); }
    }
    assert At(q, k) == d && At(q, 0) == c;
  }

  /** As long as nobody removes the first object, a pool has no dangling extents exactly if none can come
      about, whatever lands, in whatever order and with whatever failures. */
  lemma NoDanglingExact(p: Pool)
    requires At(p, 0).obj.Some? && Remove !in At(p, 0).pending
    ensures NoDangling(p) <==> forall q :: PoolEvolves(p, q) ==> !DanglesNow(q)
  {
    hide Evolution, Evolves, Occupied, Steadiness;
    if NoDangling(p) {
      forall q | PoolEvolves(p, q) ensures !DanglesNow(q) { CannotDangle(p, q); }
    } else {
      var _ := MayDangle(p);
    }
  }

  lemma CannotDangle(p: Pool, q: Pool)
    requires At(p, 0).obj.Some? && Remove !in At(p, 0).pending && NoDangling(p) && PoolEvolves(p, q)
    ensures !DanglesNow(q)
  {
    SteadyEvolves(p, q);
    if At(q, 0).obj.Some? { assert At(q, 0).obj.value.xattrs.alloc in Allocs(At(q, 0)); }
    assert forall k :: At(q, k).obj.Some? ==> Occupied(At(q, k));
  }

  /** The cluster at one time: the objects, every state it went through, how many reads failed, and how many
      requests were refused. */
  datatype Moment = Moment(pool: Pool, history: seq<Pool>, misreads: nat, refusals: nat)

  /** What was submitted, and how it ended, is not forgotten. */
  ghost predicate Grows(p: Pool, q: Pool) {
    forall k :: Ops(At(p, k)) <= Ops(At(q, k)) && At(p, k).done <= At(q, k).done
  }

  /** Time passes: nothing of the past is forgotten. */
  ghost predicate Onward(a: Moment, b: Moment) {
    a.history <= b.history && a.misreads <= b.misreads && a.refusals <= b.refusals && Grows(a.pool, b.pool)
  }

  lemma OnwardNow(a: Moment)
    ensures Onward(a, a)
  {
  }

  lemma OnwardTrans(a: Moment, b: Moment, c: Moment)
    requires Onward(a, b) && Onward(b, c)
    ensures Onward(a, c)
  {
    hide At, Ops;
    forall k ensures Ops(At(a.pool, k)) <= Ops(At(c.pool, k)) && At(a.pool, k).done <= At(c.pool, k).done {
      assert Ops(At(a.pool, k)) <= Ops(At(b.pool, k)) <= Ops(At(c.pool, k));
      assert At(a.pool, k).done <= At(b.pool, k).done <= At(c.pool, k).done;
    }
  }

  lemma UnsafeStays(a: Moment, b: Moment)
    requires Onward(a, b)
    ensures (exists h :: h in a.history && !NoDangling(h)) ==> exists h :: h in b.history && !NoDangling(h)
  {
    hide NoDangling, Grows;
  }

  lemma EvolvesGrows(p: Pool, q: Pool)
    requires PoolEvolves(p, q)
    ensures Grows(p, q)
  {
    hide Evolution, Evolves, Ops;
    forall k ensures Ops(At(p, k)) <= Ops(At(q, k)) && At(p, k).done <= At(q, k).done { EvolvesAt(p, q, k); }
  }

  lemma EnqueueGrows(p: Pool, k: nat, op: Op)
    ensures Grows(p, Enqueue(p, k, op))
  {
    hide Ops;
    OpsQueued(At(p, k), op);
  }

  /** A clean pool was clean before. */
  lemma GrowsClean(p: Pool, q: Pool)
    requires Grows(p, q)
    ensures Clean(q) ==> Clean(p)
  {
    if Clean(q) {
      forall k ensures CellClean(At(p, k)) {
        assert CellClean(At(q, k)) && At(p, k).done <= At(q, k).done;
        forall o | o in At(p, k).done ensures !o.Failed? { assert o in At(q, k).done; }
      }
    }
  }

  class Ioctx {
    var pool: Pool
    /** Every state the cluster went through: any of them may be what a crash leaves behind. */
    ghost var history: seq<Pool>
    /** How many reads of an object failed. */
    ghost var misreads: nat
    /** How many requests were refused. */
    ghost var refusals: nat

    ghost function Now(): Moment
      reads this
    {
      Moment(pool, history, misreads, refusals)
    }

    ghost predicate Since(t: Moment)
      reads this
    {
      Onward(t, Now())
    }

    ghost predicate CrashSafe()
      reads this
    {
      forall h :: h in history ==> NoDangling(h)
    }

    /** The oldest operation queued on one object ends, in one way or another. */
    method LandNext(k: nat, ghost safe: bool)
      requires At(pool, k).pending != []
      requires safe ==> Steady(pool) && CrashSafe()
      modifies this`pool, this`history
      ensures PoolEvolves(old(pool), pool) && Since(old(Now()))
      ensures |At(pool, k).done| == |old(At(pool, k).done)| + 1
      ensures |At(pool, k).pending| == |old(At(pool, k).pending)| - 1
      ensures safe ==> Steady(pool) && CrashSafe()
    {
      hide Evolves, Evolution, Moves, Steadiness, Grows;
      var fault: Option<Fault> := *;
      PoolLandEvolves(pool, k, fault);
      pool := pool[k := Land(At(pool, k), fault)];
      EvolvesGrows(old(pool), pool);
      history := history + [pool];
      if safe {
        SteadyEvolves(old(pool), pool);
        SteadyMeans(pool);
      }
    }

    /** The cluster moves on by itself. */
    method Progress(ghost safe: bool)
      requires safe ==> Steady(pool) && CrashSafe()
      modifies this`pool, this`history
      ensures PoolEvolves(old(pool), pool) && Since(old(Now()))
      ensures safe ==> Steady(pool) && CrashSafe()
    {
      hide Evolution, Steadiness, Onward;
      PoolEvolvesRefl(pool);
      OnwardNow(Now());
      var steps: nat := *;
      while steps > 0
        invariant PoolEvolves(old(pool), pool) && Since(old(Now()))
        invariant safe ==> Steady(pool) && CrashSafe()
      {
        var k: nat := *;
        if At(pool, k).pending != [] { LandAnother(old(pool), old(Now()), k, safe); }
        steps := steps - 1;
      }
    }

    /** One more operation ends. */
    method LandAnother(ghost first: Pool, ghost start: Moment, k: nat, ghost safe: bool)
      requires At(pool, k).pending != [] && PoolEvolves(first, pool) && Since(start)
      requires safe ==> Steady(pool) && CrashSafe()
      modifies this`pool, this`history
      ensures PoolEvolves(first, pool) && Since(start)
      ensures |At(pool, k).done| == |old(At(pool, k).done)| + 1
      ensures |At(pool, k).pending| == |old(At(pool, k).pending)| - 1
      ensures safe ==> Steady(pool) && CrashSafe()
    {
      hide Evolution, Steadiness, Onward;
      ghost var before := Now();
      LandNext(k, safe);
      PoolEvolvesTrans(first, before.pool, pool);
      OnwardTrans(start, before, Now());
    }

    /** Queues an operation on an object, or refuses to. */
    method Submit(k: nat, op: Op, ghost safe: bool) returns (rc: int, h: Handle)
      requires safe ==> Steady(pool) && Steady(Enqueue(pool, k, op)) && CrashSafe()
      modifies this`pool, this`history, this`refusals
      ensures rc <= 0 && Since(old(Now())) && refusals == old(refusals) + if rc < 0 then 1 else 0
      ensures rc < 0 ==> PoolEvolves(old(pool), pool)
      ensures rc == 0 ==> h == old(NextHandle(pool, k)) && PoolEvolves(old(Enqueue(pool, k, op)), pool)
      ensures rc == 0 ==> pool in history && op in At(pool, k).pending
      ensures safe ==> Steady(pool) && CrashSafe()
    {
      hide Moves, Evolves, Evolution, Steadiness, NoDangling, Grows;
      Progress(safe);
      ghost var before := Now();
      rc, h := *, NextHandle(pool, k);
      if rc < 0 {
        refusals := refusals + 1;
        return;
      }
      rc := 0;
      EnqueueEvolves(old(pool), pool, k, op);
      HandleEvolves(old(pool), pool, k);
      if safe {
        SteadyEvolves(Enqueue(old(pool), k, op), Enqueue(pool, k, op));
        SteadyMeans(Enqueue(pool, k, op));
      }
      EnqueueGrows(pool, k, op);
      pool := Enqueue(pool, k, op);
      history := history + [pool];
      OnwardTrans(old(Now()), before, Now());
      assert At(pool, k).pending[|At(pool, k).pending| - 1] == op;
    }

    /** Waits until an operation has ended.  That says nothing about how: the answer is always 0. */
    method WaitForComplete(h: Handle, ghost safe: bool) returns (rc: int)
      requires IsPending(pool, h) || IsDone(pool, h)
      requires safe ==> Steady(pool) && CrashSafe()
      modifies this`pool, this`history
      ensures PoolEvolves(old(pool), pool) && Since(old(Now()))
      ensures IsDone(pool, h) && rc == 0
      ensures safe ==> Steady(pool) && CrashSafe()
    {
      hide Evolution, Steadiness, Onward;
      Progress(safe);
      while !IsDone(pool, h)
        invariant PoolEvolves(old(pool), pool) && Since(old(Now()))
        invariant safe ==> Steady(pool) && CrashSafe()
        decreases h.n - |At(pool, h.stripe).done|
      {
        StillPending(old(pool), pool, h);
        LandAnother(old(pool), old(Now()), h.stripe, safe);
      }
      rc := 0;
    }

    /** Whether an operation has ended by now. */
    method IsComplete(h: Handle, ghost safe: bool) returns (b: bool)
      requires safe ==> Steady(pool) && CrashSafe()
      modifies this`pool, this`history
      ensures PoolEvolves(old(pool), pool) && Since(old(Now()))
      ensures b == IsDone(pool, h)
      ensures safe ==> Steady(pool) && CrashSafe()
    {
      hide Evolution, Steadiness, Onward;
      Progress(safe);
      b := IsDone(pool, h);
    }

    /** How an operation that has ended did end. */
    method GetReturnValue(h: Handle) returns (rc: int)
      requires IsDone(pool, h)
      ensures rc == ReturnCode(At(pool, h.stripe).done[h.n])
    {
      rc := ReturnCode(At(pool, h.stripe).done[h.n]);
    }

    /** Queues an operation, waits for it and says how it ended. */
    method Operate(k: nat, op: Op, ghost safe: bool) returns (rc: int, ghost refused: bool)
      requires safe ==> Steady(pool) && Steady(Enqueue(pool, k, op)) && CrashSafe()
      modifies this`pool, this`history, this`refusals
      ensures rc <= 0 && Since(old(Now())) && (safe ==> Steady(pool) && CrashSafe())
      ensures refusals == old(refusals) + if refused then 1 else 0
      ensures !refused ==> PoolEvolves(old(Enqueue(pool, k, op)), pool) && IsDone(pool, old(NextHandle(pool, k)))
                           && rc == ReturnCode(At(pool, k).done[old(NextHandle(pool, k)).n])
      ensures refused ==> rc < 0
    {
      hide Moves, Evolves, Evolution, Steadiness, NoDangling, Onward;
      ghost var before := pool;
      var h;
      rc, h := Submit(k, op, safe);
      refused := rc < 0;
      if rc < 0 { return; }
      ghost var mid := Now();
      HandleSubmitted(before, mid.pool, k, op);
      rc := WaitForComplete(h, safe);
      PoolEvolvesTrans(Enqueue(before, k, op), mid.pool, pool);
      OnwardTrans(old(Now()), mid, Now());
      rc := GetReturnValue(h);
    }

    /** Waits for everything queued on one object. */
    method Settle(k: nat, ghost safe: bool)
      requires safe ==> Steady(pool) && CrashSafe()
      modifies this`pool, this`history
      ensures PoolEvolves(old(pool), pool) && Since(old(Now()))
      ensures At(pool, k).pending == []
      ensures safe ==> Steady(pool) && CrashSafe()
    {
      hide Evolution, Steadiness, Onward;
      Progress(safe);
      while At(pool, k).pending != []
        invariant PoolEvolves(old(pool), pool) && Since(old(Now()))
        invariant safe ==> Steady(pool) && CrashSafe()
        decreases |At(pool, k).pending|
      {
        LandAnother(old(pool), old(Now()), k, safe);
      }
    }

    /** Reads a range of one object, behind everything queued on it, and waits: short at the end of its
        data, and empty, without a word, if there is no object or the read fails. */
    method ReadObject(k: nat, off: nat, len: nat, ghost safe: bool) returns (rc: int, bytes: seq<Byte>, ghost failed: bool)
      requires safe ==> Steady(pool) && CrashSafe()
      modifies this
      ensures PoolEvolves(old(pool), pool) && Since(old(Now()))
      ensures rc <= 0 && refusals == old(refusals) + if rc < 0 then 1 else 0
      ensures rc == 0 ==> At(pool, k).pending == []
      ensures misreads == old(misreads) + if rc == 0 && failed then 1 else 0
      ensures rc == 0 ==> bytes == if failed || At(pool, k).obj.None? then [] else Slice(At(pool, k).obj.value.data, off, len)
      ensures safe ==> Steady(pool) && CrashSafe()
    {
      hide Evolution, Steadiness, Grows;
      Settle(k, safe);
      rc, bytes, failed := *, [], false;
      if rc < 0 {
        refusals := refusals + 1;
        return;
      }
      rc := 0;
      if At(pool, k).obj.Some? {
        var fault: bool := *;
        failed := fault;
        misreads := misreads + if fault then 1 else 0;
        if !fault { bytes := Slice(At(pool, k).obj.value.data, off, len); }
      }
    }

    /** Reads the attributes of one object, or says why not. */
    method GetXattrs(k: nat, ghost safe: bool) returns (rc: int, x: Xattrs)
      requires safe ==> Steady(pool) && CrashSafe()
      modifies this`pool, this`history, this`refusals
      ensures PoolEvolves(old(pool), pool) && Since(old(Now()))
      ensures rc <= 0
      ensures refusals == old(refusals) + if rc < 0 && At(pool, k).obj.Some? then 1 else 0
      ensures At(pool, k).obj.None? ==> rc == ENOENT
      ensures rc == 0 ==> At(pool, k).obj.Some? && x == At(pool, k).obj.value.xattrs
      ensures safe ==> Steady(pool) && CrashSafe()
    {
      hide Evolution, Steadiness, Grows;
      Settle(k, safe);
      rc, x := *, Xattrs(0, 0, 0);
      if At(pool, k).obj.None? {
        rc := ENOENT;
      } else if rc >= 0 {
        rc, x := 0, At(pool, k).obj.value.xattrs;
      } else {
        refusals := refusals + 1;
      }
    }
  }

  lemma StillPending(p: Pool, q: Pool, h: Handle)
    requires PoolEvolves(p, q) && (IsPending(p, h) || IsDone(p, h)) && !IsDone(q, h)
    ensures At(q, h.stripe).pending != []
  {
    EvolvesAt(p, q, h.stripe);
  }

  lemma CleanEnqueue(p: Pool, k: nat, op: Op)
    ensures Clean(Enqueue(p, k, op)) <==> Clean(p)
  {
    var q := Enqueue(p, k, op);
    assert forall j :: At(q, j).done == At(p, j).done;
    assert forall j :: CellClean(At(q, j)) == CellClean(At(p, j));
  }

  lemma HandleEvolves(p: Pool, q: Pool, k: nat)
    requires PoolEvolves(p, q)
    ensures NextHandle(q, k) == NextHandle(p, k)
  {
    EvolvesAt(p, q, k);
  }

  lemma HandleSubmitted(p: Pool, q: Pool, k: nat, op: Op)
    requires PoolEvolves(Enqueue(p, k, op), q)
    ensures IsPending(q, NextHandle(p, k)) || IsDone(q, NextHandle(p, k))
  {
    EvolvesAt(Enqueue(p, k, op), q, k);
  }

  /** What is there of the range [off, off + len). */
  function Slice(data: seq<Byte>, off: nat, len: nat): (r: seq<Byte>)
    ensures |r| <= len
    ensures off + len <= |data| ==> r == data[off..off + len]
  {
    if |data| <= off then []
    else if |data| < off + len then data[off..]
    else data[off..off + len]
  }
}
