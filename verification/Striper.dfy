/** SimpleRADOSStriper: one flat file kept in many objects, written asynchronously. */
module SimpleRadosStriper {
  import opened Wrappers
  import opened Rados
  import opened Striping
  import opened RadosClient
  import opened StriperState

  const EBLOCKLISTED: Errno := -108

  function One(b: bool): nat {
    if b then 1 else 0
  }

  /** The oldest operation that is still on the queue has not ended. */
  predicate Looked(p: Pool, aios: seq<Handle>) {
    aios == [] || !IsDone(p, aios[0])
  }

  /** The file `f` cut or zero-extended to `n` bytes. */
  function Resized(f: seq<Byte>, n: nat): (r: seq<Byte>)
    ensures |r| == n
    ensures n <= |f| ==> r == f[..n]
  {
    if n <= |f| then f[..n] else f + seq(n - |f|, _ => 0)
  }

  /** The file after writing `d` at `off`. */
  function Written(f: seq<Byte>, off: nat, d: seq<Byte>): (r: seq<Byte>)
    ensures |r| == if |f| < off + |d| then off + |d| else |f|
    ensures off <= |f| ==> r == Splice(f, off, d)
  {
    if off <= |f| then Splice(f, off, d) else Splice(Resized(f, off), off, d)
  }

  class Striper {
    const ioctx: Ioctx
    var size: nat
    var alloc: nat
    var version: nat
    var sizeDirty: bool
    var aios: seq<Handle>
    var aiosFailure: int
    var blocklisted: bool

    ghost var popped: seq<Handle>
    ghost var story: Story
    ghost var landed: bool
    ghost var told: bool
    ghost var bounded: bool
    ghost var dense: bool
    ghost var flat: seq<Byte>

    ghost function View(): Mem
      reads this
    {
      Mem(size, alloc, version, sizeDirty, aios, aiosFailure, popped, story, landed, told, bounded, dense)
    }

    /** Valid but for operations in `extra` that are waited for one by one. */
    ghost predicate ValidWith(extra: seq<Handle>)
      reads this, ioctx
    {
      && Inv(ioctx.pool, View(), extra)
      && ContentOk(ioctx.pool, View(), flat)
      && (bounded && landed ==> ioctx.CrashSafe())
    }

    ghost predicate Valid()
      reads this, ioctx
    {
      ValidWith([]) && Tight(View()) && |flat| == size
    }

    /** No extent dangles, none did, and none will from what is queued. */
    ghost predicate Secure()
      reads this, ioctx
    {
      Steady(ioctx.pool) && ioctx.CrashSafe()
    }

    /** Whether an extent dangles now, or did, or will, is decided by `b`. */
    ghost predicate SecureIff(b: bool)
      reads this, ioctx
    {
      if b then Secure() else !ioctx.CrashSafe()
    }

    constructor (io: Ioctx)
      ensures ioctx == io && !blocklisted
      ensures View() == Mem(0, 0, 0, false, [], 0, [], UNTOLD, true, false, true, true) && flat == []
    {
      ioctx := io;
      size, alloc, version, sizeDirty, aios, aiosFailure, blocklisted := 0, 0, 0, false, [], 0, false;
      popped, story, landed, told, bounded, dense, flat := [], UNTOLD, true, false, true, true, [];
    }

    /** Takes the oldest operation, which has ended with `rc` as far as anybody looked, off the queue. */
    method PopFront(rc: int, ghost block: bool)
      requires aios != [] && rc == if block then 0 else CodeOf(ioctx.pool, aios[0])
      modifies this`aios, this`aiosFailure, this`popped, this`story
      ensures View() == old(Popped(ioctx.pool, View(), block))
    {
      if rc != 0 && aiosFailure == 0 {
        aiosFailure := rc;
      }
      if block {
        story := story.(drained := story.drained + [aios[0]]);
      } else {
        popped := popped + [aios[0]];
      }
      aios := aios[1..];
    }

    /** Takes finished operations off the queue and remembers the first failure among those that it did
        not have to wait for.  A blocking call empties the queue. */
    method WaitForAios(block: bool, ghost safe: bool) returns (rc: int)
      requires ValidWith([]) && (bounded && landed ==> safe) && (safe ==> Secure())
      modifies this`aios, this`aiosFailure, this`popped, this`story, ioctx`pool, ioctx`history
      ensures ValidWith([]) && (safe ==> Secure())
      ensures PoolEvolves(old(ioctx.pool), ioctx.pool) && ioctx.Since(old(ioctx.Now()))
      ensures block ==> aios == [] && popped == old(popped) && aiosFailure == old(aiosFailure) && rc == aiosFailure
      ensures block ==> story == old(story.(drained := story.drained + aios))
      ensures !block ==> old(popped) <= popped && popped + aios == old(popped + aios) && story == old(story)
      ensures !block ==> Looked(ioctx.pool, aios)
      ensures old(aiosFailure) != 0 ==> aiosFailure == old(aiosFailure)
      ensures rc == 0 || rc == aiosFailure
    {
      hide Evolution, Steadiness, Standing, Content, FirstFailure, CodeOf, Onward;
      PoolEvolvesRefl(ioctx.pool);
      OnwardNow(ioctx.Now());
      while aios != []
        invariant ValidWith([]) && (safe ==> Secure())
        invariant PoolEvolves(old(ioctx.pool), ioctx.pool) && ioctx.Since(old(ioctx.Now()))
        invariant block ==> popped == old(popped) && aiosFailure == old(aiosFailure)
        invariant block ==> story == old(story).(drained := story.drained) && story.drained + aios == old(story.drained + aios)
        invariant !block ==> old(popped) <= popped && popped + aios == old(popped + aios) && story == old(story)
        invariant old(aiosFailure) != 0 ==> aiosFailure == old(aiosFailure)
        decreases |aios|
      {
        ghost var before, moment := ioctx.pool, ioctx.Now();
        InvUse(before, View(), []);
        assert aios[0] in View().aios;
        var complete := true;
        if block {
          rc := ioctx.WaitForComplete(aios[0], safe);
        } else {
          complete := ioctx.IsComplete(aios[0], safe);
        }
        InvEvolves(before, ioctx.pool, View(), [], flat);
        PoolEvolvesTrans(old(ioctx.pool), before, ioctx.pool);
        OnwardTrans(old(ioctx.Now()), moment, ioctx.Now());
        if !complete { return 0; }
        if !block { rc := ioctx.GetReturnValue(aios[0]); }
        assert rc == if block then 0 else CodeOf(ioctx.pool, aios[0]) by { DoneCode(ioctx.pool, aios[0]); }
        InvPop(ioctx.pool, View(), flat, block);
        PopFront(rc, block);
      }
      assert story.drained + [] == story.drained;
      rc := aiosFailure;
    }

    /** Queues the removal of every object in [prune, alloc). */
    method SubmitRemoves(prune: nat) returns (rc: int, removes: seq<Handle>)
      requires ValidWith([]) && prune % STRIPE == 0 && 0 < prune <= alloc && |flat| <= prune
      modifies ioctx`pool, ioctx`history, ioctx`refusals
      ensures rc <= 0 && ValidWith(removes) && ioctx.Since(old(ioctx.Now()))
      ensures ioctx.refusals == old(ioctx.refusals) + One(rc < 0)
      ensures rc == 0 ==> Removals(ioctx.pool, removes, prune) && prune + |removes| * STRIPE == alloc
    {
      hide Evolves, Evolution, Steadiness, Standing, Content, Removals, Onward;
      assert alloc % STRIPE == 0 by { InvAlloc(ioctx.pool, View(), []); }
      rc, removes := 0, [];
      RemovalsNone(ioctx.pool, prune);
      OnwardNow(ioctx.Now());
      var len, offset := alloc - prune, prune;
      while len > 0
        invariant rc == 0 && ValidWith(removes) && Removals(ioctx.pool, removes, prune)
        invariant offset == prune + |removes| * STRIPE && offset + len == alloc && 0 <= len
        invariant ioctx.Since(old(ioctx.Now())) && ioctx.refusals == old(ioctx.refusals)
      {
        var ext := NextExtent(offset, len);
        ghost var before, moment := ioctx.pool, ioctx.Now();
        InvUse(before, View(), removes);
        if bounded && landed { SteadyRemove(before, ext.stripe); }
        var h;
        rc, h := ioctx.Submit(ext.stripe, Op.Remove, bounded && landed);
        OnwardTrans(old(ioctx.Now()), moment, ioctx.Now());
        if rc < 0 {
          InvEvolves(before, ioctx.pool, View(), removes, flat);
          return;
        }
        RemoveSubmitted(before, ioctx.pool, View(), ext.stripe, removes, flat);
        RemovalsExtend(before, ioctx.pool, removes, prune);
        removes := removes + [h];
        len := len - ext.len;
        offset := offset + ext.len;
      }
    }

    /** Waits for all removals.  As waiting never returns an error, whether they worked is not noticed. */
    method AwaitRemoves(removes: seq<Handle>, ghost prune: nat)
      requires ValidWith(removes) && Removals(ioctx.pool, removes, prune)
      modifies this`story, this`landed, ioctx`pool, ioctx`history
      ensures ValidWith([]) && (old(bounded && landed) ==> Secure())
      ensures ioctx.Since(old(ioctx.Now()))
      ensures View() == Waited(ioctx.pool, old(View()), removes) && Longer(old(story), story)
      ensures old(landed) ==> Shows(ioctx.pool, alloc)
      ensures Still(ioctx.pool, prune, prune / STRIPE + |removes|)
      ensures NoneFailed(ioctx.pool, removes) ==> Gone(ioctx.pool, prune, prune / STRIPE + |removes|)
    {
      hide Evolves, Evolution, Steadiness, Standing, Content, Removals, Still, Gone, NoneFailed, Onward;
      InvUse(ioctx.pool, View(), removes);
      OnwardNow(ioctx.Now());
      for i := 0 to |removes|
        invariant ValidWith(removes) && Removals(ioctx.pool, removes, prune) && ioctx.Since(old(ioctx.Now()))
        invariant View() == old(View())
        invariant AllDone(ioctx.pool, removes[..i])
      {
        ghost var before, moment := ioctx.pool, ioctx.Now();
        InvUse(before, View(), removes);
        assert removes[i] in removes;
        var _ := ioctx.WaitForComplete(removes[i], bounded && landed);
        OnwardTrans(old(ioctx.Now()), moment, ioctx.Now());
        InvEvolves(before, ioctx.pool, View(), removes, flat);
        RemovalsEvolve(before, ioctx.pool, removes, prune);
        DoneEvolves(before, ioctx.pool, removes[..i]);
      }
      InvUse(ioctx.pool, View(), removes);
      assert removes[..|removes|] == removes;
      InvWaited(ioctx.pool, View(), removes, flat);
      RemovalsDone(ioctx.pool, removes, prune);
      if landed { ShowsMemory(ioctx.pool, View(), removes); }
      story, landed := story.(awaited := story.awaited + removes), landed && NoneFailed(ioctx.pool, removes);
    }

    /** Queues an attribute update on the first object and waits for it, not looking at how it ended. */
    method UpdateXattrs(op: Op, ghost safe: bool) returns (rc: int, ghost mid: Pool)
      requires ValidWith([]) && op.SetXattrs? && op.version == version + 1 && op.alloc.Some? && AllocOk(op.alloc.value)
      requires bounded ==> Updated(View(), op).size <= Updated(View(), op).alloc
      requires (bounded && landed ==> safe) && (safe ==> Secure() && Steady(Enqueue(ioctx.pool, 0, op)))
      modifies ioctx`pool, ioctx`history, ioctx`refusals
      ensures rc <= 0 && ioctx.Since(old(ioctx.Now())) && (safe ==> Secure())
      ensures ioctx.refusals == old(ioctx.refusals) + One(rc < 0)
      ensures rc < 0 ==> Inv(ioctx.pool, View().(told := true), []) && ContentOk(ioctx.pool, View().(told := true), flat)
      ensures rc == 0 ==> mid in ioctx.history && op in At(mid, 0).pending
                          && PoolEvolves(old(Enqueue(ioctx.pool, 0, op)), mid) && PoolEvolves(mid, ioctx.pool)
      ensures rc == 0 ==> var h := old(NextHandle(ioctx.pool, 0));
                          && Inv(ioctx.pool, Renewed(ioctx.pool, View(), op, h), [])
                          && ContentOk(ioctx.pool, Renewed(ioctx.pool, View(), op, h), flat)
                          && (HasFailed(ioctx.pool, h) && landed ==> Shows(ioctx.pool, alloc))
    {
      hide Evolves, Evolution, Steadiness, Standing, Content, Updated, Renewed, Shows, Grows;
      ghost var before := ioctx.pool;
      InvUse(before, View(), []);
      var h;
      rc, h := ioctx.Submit(0, op, safe);
      mid := ioctx.pool;
      ghost var moment := ioctx.Now();
      if rc < 0 {
        InvEvolves(before, ioctx.pool, View(), [], flat);
        InvTold(ioctx.pool, View(), flat);
        return;
      }
      assert Submitted(mid, h) by { FreshSubmitted(before, mid, 0, op); }
      rc := ioctx.WaitForComplete(h, safe);
      OnwardTrans(old(ioctx.Now()), moment, ioctx.Now());
      PoolEvolvesTrans(Enqueue(before, 0, op), mid, ioctx.pool);
      XattrsSync(before, ioctx.pool, View(), op, flat);
    }

    /** Takes over the allocation of an update that was waited for, however it ended. */
    method Adopt(newAlloc: nat, newVersion: nat, ghost h: Handle)
      modifies this`alloc, this`version, this`story, this`landed
      ensures View() == old(View()).(alloc := newAlloc, version := newVersion,
                                     story := old(story).(awaited := old(story).awaited + [h]),
                                     landed := old(landed) && NoneFailed(ioctx.pool, [h]))
      ensures Longer(old(story), story)
    {
      version := newVersion;
      alloc := newAlloc;
      story, landed := story.(awaited := story.awaited + [h]), landed && NoneFailed(ioctx.pool, [h]);
    }

    /** Gives the objects above `a` back: first the objects go, then the allocation is lowered.  That they
        have gone is not made sure of, and an extent dangles exactly if one of them has not. */
    method ShrinkAlloc(a: nat) returns (rc: int)
      requires ValidWith([]) && a <= alloc && 0 < alloc && AllocOk(a) && |flat| == size <= a
      modifies this`alloc, this`version, this`story, this`landed, this`told, ioctx`pool, ioctx`history, ioctx`refusals
      ensures ValidWith([]) && rc <= 0 && ioctx.Since(old(ioctx.Now())) && Longer(old(story), story)
      ensures ioctx.refusals == old(ioctx.refusals) + One(rc < 0)
      ensures rc == 0 ==> alloc == a && version == old(version) + 1 && told == old(told)
      ensures rc < 0 ==> alloc == old(alloc) && version == old(version) && told
      ensures rc == 0 && old(bounded && landed) ==> Settled(ioctx.pool, a) && SecureIff(Within(ioctx.pool, a))
    {
      hide Evolves, Evolution, Steadiness, Standing, Content, Removals, Updated, Gone, Still, NoneFailed, NoDangling, Onward, Longer;
      InvAlloc(ioctx.pool, View(), []);
      var prune := if a < STRIPE then STRIPE else a;
      var removes;
      rc, removes := SubmitRemoves(prune);
      ghost var submitted := ioctx.Now();
      if rc < 0 {
        InvAbandon(ioctx.pool, View(), removes, flat);
        Abandon(removes);
        return;
      }
      AwaitRemoves(removes, prune);
      ghost var mid, moment := story, ioctx.Now();
      OnwardTrans(old(ioctx.Now()), submitted, moment);
      rc := LowerAlloc(a, prune, |removes|, old(bounded && landed));
      OnwardTrans(old(ioctx.Now()), moment, ioctx.Now());
      LongerTrans(old(story), mid, story);
    }

    /** Makes an attribute update that changes the allocation and takes the new one over, however it ended. */
    method ReplaceAlloc(op: Op, ghost safe: bool) returns (rc: int, ghost mid: Pool)
      requires ValidWith([]) && op.SetXattrs? && op.version == version + 1 && op.alloc.Some? && AllocOk(op.alloc.value)
      requires bounded ==> Updated(View(), op).size <= Updated(View(), op).alloc
      requires (bounded && landed ==> safe) && (safe ==> Secure() && Steady(Enqueue(ioctx.pool, 0, op)))
      modifies this`alloc, this`version, this`story, this`landed, this`told, ioctx`pool, ioctx`history, ioctx`refusals
      ensures rc <= 0 && ioctx.Since(old(ioctx.Now())) && (safe ==> Secure()) && Longer(old(story), story)
      ensures ioctx.refusals == old(ioctx.refusals) + One(rc < 0)
      ensures Inv(ioctx.pool, if rc == 0 then Updated(View(), op) else View(), [])
      ensures ContentOk(ioctx.pool, if rc == 0 then Updated(View(), op) else View(), flat)
      ensures rc < 0 ==> View() == old(View()).(told := true)
      ensures rc == 0 ==> View() == old(View()).(version := op.version, alloc := op.alloc.value, story := story, landed := landed)
      ensures (landed ==> old(landed)) && (old(landed) && !landed ==> Shows(ioctx.pool, old(alloc)))
      ensures rc == 0 ==> mid in ioctx.history && op in At(mid, 0).pending
                          && PoolEvolves(old(Enqueue(ioctx.pool, 0, op)), mid) && PoolEvolves(mid, ioctx.pool)
    {
      hide Evolves, Evolution, Steadiness, Standing, Content, Shows, NoneFailed, NoDangling, Enqueue, At, Onward, Longer,
           Updated, Renewed;
      LongerTrans(story, story, story);
      ghost var h := NextHandle(ioctx.pool, 0);
      rc, mid := UpdateXattrs(op, safe);
      if rc < 0 {
        Tell();
        return;
      }
      RenewedAdopted(ioctx.pool, View(), op, h);
      Adopt(op.alloc.value, op.version, h);
    }

    /** Lowers the allocation to `a`, whether or not the objects from `prune` on are gone. */
    method LowerAlloc(a: nat, ghost prune: nat, ghost n: nat, ghost was: bool) returns (rc: int)
      requires ValidWith([]) && AllocOk(a) && |flat| == size <= a
      requires prune == (if a < STRIPE then STRIPE else a) && prune + n * STRIPE == alloc
      requires Still(ioctx.pool, prune, prune / STRIPE + n)
      requires bounded && landed ==> was && Gone(ioctx.pool, prune, prune / STRIPE + n)
      requires was ==> bounded && Secure() && Shows(ioctx.pool, alloc)
      modifies this`alloc, this`version, this`story, this`landed, this`told, ioctx`pool, ioctx`history, ioctx`refusals
      ensures ValidWith([]) && rc <= 0 && ioctx.Since(old(ioctx.Now())) && Longer(old(story), story)
      ensures ioctx.refusals == old(ioctx.refusals) + One(rc < 0)
      ensures rc == 0 ==> alloc == a && version == old(version) + 1 && told == old(told)
      ensures rc < 0 ==> alloc == old(alloc) && version == old(version) && told
      ensures rc == 0 && was ==> Settled(ioctx.pool, a) && SecureIff(Within(ioctx.pool, a))
    {
      hide Evolves, Evolution, Steadiness, Standing, Content, Updated, Gone, Still, NoneFailed, NoDangling, Shows,
           Within, Settled, RoundUp, HasFailed, At, Enqueue, NextHandle, Onward, Longer;
      var op := SetXattrs(Some(a), None, version + 1);
      UpdatedShrink(View(), op);
      ghost var before := ioctx.pool;
      ghost var safe, from := was && Gone(before, prune, prune / STRIPE + n), alloc;
      if safe { SteadyPruned(before, View(), op, prune, n); }
      ghost var mid;
      rc, mid := ReplaceAlloc(op, safe);
      UpdatedShrink(View(), op);
      if rc == 0 && was { Lowered(before, mid, ioctx.pool, op, prune, n, from); }
    }

    /** Shrinks the allocation when it is much larger than the file needs. */
    method MaybeShrinkAlloc() returns (rc: int)
      requires ValidWith([]) && |flat| == size
      modifies this`alloc, this`version, this`story, this`landed, this`told, ioctx`pool, ioctx`history, ioctx`refusals
      ensures Valid() && rc <= 0 && ioctx.Since(old(ioctx.Now())) && Longer(old(story), story)
      ensures ioctx.refusals == old(ioctx.refusals) + One(rc < 0)
      ensures rc == 0 ==> alloc == ShrunkAlloc(size, old(alloc)) && told == old(told)
      ensures rc == 0 ==> version == old(version) + if ShrunkAlloc(size, old(alloc)) == old(alloc) then 0 else 1
      ensures rc < 0 ==> alloc == old(alloc) && version == old(version) && told
      ensures rc == 0 && old(bounded && landed) ==> Settled(ioctx.pool, alloc) && SecureIff(Within(ioctx.pool, alloc))
    {
      hide Standing, Content, NoDangling, Steadiness, Settled, Within, Onward, Longer;
      OnwardNow(ioctx.Now());
      LongerTrans(story, story, story);
      InvAlloc(ioctx.pool, View(), []);
      InvUse(ioctx.pool, View(), []);
      if bounded && landed { WithinSafe(ioctx.pool, View()); }
      if size == 0 {
        if alloc > 0 {
          rc := ShrinkAlloc(0);
          return;
        }
        return 0;
      }
      var newAlloc := GrownAlloc(size);
      if alloc > newAlloc && alloc - newAlloc > MIN_GROWTH {
        rc := ShrinkAlloc(newAlloc);
        return;
      }
      rc := 0;
    }

    /** A call is about to return an error, and leaves operations on their way. */
    ghost method Abandon(hs: seq<Handle>)
      modifies this`told, this`story
      ensures View() == Abandoned(old(View()), hs) && Longer(old(story), story)
    {
      told, story := true, story.(strays := story.strays + hs);
    }

    /** An update is on its way. */
    method Enlist(h: Handle, newVersion: nat)
      modifies this`aios, this`version
      ensures View() == old(View()).(aios := old(aios) + [h], version := newVersion)
    {
      version := newVersion;
      aios := aios + [h];
    }

    /** A call is about to return an error. */
    ghost method Tell()
      modifies this`told
      ensures View() == old(View()).(told := true)
    {
      told := true;
    }

    /** Queues an attribute update that leaves the allocation as it is. */
    method QueueXattrs(op: Op) returns (rc: int, ghost queued: seq<Handle>)
      requires ValidWith([]) && op.SetXattrs? && op.version == version + 1
      requires op.alloc.Some? ==> op.alloc.value == alloc && !bounded
      requires bounded ==> Updated(View(), op).size <= alloc
      modifies this`aios, this`version, this`told, ioctx`pool, ioctx`history, ioctx`refusals
      ensures rc <= 0 && (bounded && landed ==> Secure()) && ioctx.Since(old(ioctx.Now()))
      ensures ioctx.refusals == old(ioctx.refusals) + One(rc < 0)
      ensures rc == 0 ==> Inv(ioctx.pool, Updated(View(), op), []) && ContentOk(ioctx.pool, Updated(View(), op), flat)
      ensures rc == 0 ==> View() == old(View()).(version := op.version, aios := old(aios) + queued)
      ensures rc < 0 ==> Inv(ioctx.pool, View(), []) && ContentOk(ioctx.pool, View(), flat)
      ensures rc < 0 ==> View() == old(View()).(told := true) && queued == []
    {
      hide Evolves, Evolution, Steadiness, Standing, Content, Updated, NoDangling, NextHandle, Enqueue, At, Onward;
      ghost var before, m := ioctx.pool, View();
      InvUse(before, m, []);
      if Safe(m) { SteadyUpdate(before, m, op); }
      var h;
      rc, h := ioctx.Submit(0, op, Safe(m));
      if rc < 0 {
        InvEvolves(before, ioctx.pool, m, [], flat);
        InvTold(ioctx.pool, m, flat);
        queued := [];
        Tell();
        return;
      }
      XattrsAsync(before, ioctx.pool, m, op, flat);
      queued := [h];
      Enlist(h, op.version);
      UpdatedAgain(m, op, h);
    }

    /** Makes an attribute update that changes the allocation.  The call waits so that the allocation is in
        place before data is; if the update failed, the attributes still show the old one. */
    method GrowXattrs(op: Op) returns (rc: int)
      requires ValidWith([]) && op.SetXattrs? && op.version == version + 1 && op.alloc.Some? && AllocOk(op.alloc.value)
      requires bounded ==> alloc <= op.alloc.value && Updated(View(), op).size <= op.alloc.value
      modifies this`alloc, this`version, this`story, this`landed, this`told, ioctx`pool, ioctx`history, ioctx`refusals
      ensures rc <= 0 && (old(bounded && landed) ==> Secure()) && ioctx.Since(old(ioctx.Now())) && Longer(old(story), story)
      ensures ioctx.refusals == old(ioctx.refusals) + One(rc < 0)
      ensures rc == 0 ==> Inv(ioctx.pool, Updated(View(), op), []) && ContentOk(ioctx.pool, Updated(View(), op), flat)
      ensures rc == 0 ==> View() == old(View()).(version := op.version, alloc := op.alloc.value,
                                                 story := story, landed := landed)
      ensures (landed ==> old(landed)) && (old(landed) && !landed ==> Shows(ioctx.pool, old(alloc)))
      ensures rc < 0 ==> Inv(ioctx.pool, View(), []) && ContentOk(ioctx.pool, View(), flat)
      ensures rc < 0 ==> View() == old(View()).(told := true)
    {
      hide Evolves, Evolution, Steadiness, Standing, Content, Shows, NoneFailed, NoDangling, Enqueue, At, Onward, Longer, Updated;
      InvUse(ioctx.pool, View(), []);
      if bounded && landed { SteadyUpdate(ioctx.pool, View(), op); }
      UpdatedIs(View(), op);
      ghost var mid;
      rc, mid := ReplaceAlloc(op, bounded && landed);
    }

    /** Sends an attribute update, waiting for it only if it changes the allocation. */
    method SendXattrs(op: Op) returns (rc: int, ghost queued: seq<Handle>)
      requires ValidWith([]) && op.SetXattrs? && op.version == version + 1
      requires op.alloc.Some? ==> AllocOk(op.alloc.value) && (bounded ==> alloc < op.alloc.value)
      requires bounded ==> Updated(View(), op).size <= Updated(View(), op).alloc
      modifies this`alloc, this`version, this`aios, this`story, this`landed, this`told, ioctx`pool, ioctx`history, ioctx`refusals
      ensures rc <= 0 && (old(bounded && landed) ==> Secure()) && ioctx.Since(old(ioctx.Now())) && Longer(old(story), story)
      ensures ioctx.refusals == old(ioctx.refusals) + One(rc < 0)
      ensures rc == 0 ==> Inv(ioctx.pool, Updated(View(), op), []) && ContentOk(ioctx.pool, Updated(View(), op), flat)
      ensures rc == 0 ==> View() == old(View()).(version := op.version, alloc := alloc, aios := old(aios) + queued,
                                                 story := story, landed := landed)
      ensures rc == 0 ==> alloc == if op.alloc.Some? then op.alloc.value else old(alloc)
      ensures (landed ==> old(landed)) && (old(landed) && !landed ==> Shows(ioctx.pool, old(alloc)))
      ensures op.alloc.None? ==> landed == old(landed)
      ensures op.alloc.Some? && op.alloc.value != old(alloc) ==> queued == []
      ensures rc < 0 ==> Inv(ioctx.pool, View(), []) && ContentOk(ioctx.pool, View(), flat)
      ensures rc < 0 ==> View() == old(View()).(told := true) && queued == []
    {
      hide Evolves, Evolution, Steadiness, Standing, Content, Shows, NoDangling, RoundUp, At, Updated, Onward, Longer;
      LongerTrans(story, story, story);
      UpdatedIs(View(), op);
      if op.alloc.Some? && op.alloc.value != alloc {
        queued := [];
        rc := GrowXattrs(op);
      } else {
        rc, queued := QueueXattrs(op);
      }
    }

    /** Sends an attribute update and takes over the size that it records. */
    method PushMetadata(op: Op) returns (rc: int, ghost queued: seq<Handle>)
      requires ValidWith([]) && op.SetXattrs? && op.version == version + 1
      requires op.alloc.Some? ==> AllocOk(op.alloc.value) && (bounded ==> alloc < op.alloc.value)
      requires bounded ==> Updated(View(), op).size <= Updated(View(), op).alloc
      modifies this`size, this`alloc, this`version, this`sizeDirty, this`aios, this`story, this`landed, this`told
      modifies ioctx`pool, ioctx`history, ioctx`refusals
      ensures rc <= 0 && ValidWith([])
      ensures (old(bounded && landed) ==> Secure()) && ioctx.Since(old(ioctx.Now())) && Longer(old(story), story)
      ensures ioctx.refusals == old(ioctx.refusals) + One(rc < 0)
      ensures rc == 0 ==> aios == old(aios) + queued && told == old(told) && version == op.version
      ensures rc == 0 ==> alloc == (if op.alloc.Some? then op.alloc.value else old(alloc))
      ensures rc == 0 ==> size == (if op.size.Some? then op.size.value else old(size))
                          && sizeDirty == (old(sizeDirty) && op.size.None?)
      ensures rc < 0 ==> View() == old(View()).(told := true) && queued == []
      ensures (landed ==> old(landed)) && (old(landed) && !landed ==> Shows(ioctx.pool, old(alloc)))
      ensures op.alloc.None? ==> landed == old(landed)
      ensures op.alloc.Some? && op.alloc.value != old(alloc) ==> queued == []
    {
      hide Evolves, Evolution, Steadiness, Standing, Content, Shows, NoDangling, RoundUp, At, Updated, Onward, Longer;
      UpdatedIs(View(), op);
      rc, queued := SendXattrs(op);
      UpdatedIs(View(), op);
      if rc == 0 && op.size.Some? {
        Resize(op.size.value);
      }
    }

    /** Takes over a size that has been recorded. */
    method Resize(n: nat)
      modifies this`size, this`sizeDirty
      ensures View() == old(View()).(size := n, dirty := false)
    {
      size := n;
      sizeDirty := false;
    }

    /** Takes note of a request up to byte `end` that does, or does not, start inside the file. */
    ghost method Note(end: nat, inside: bool)
      requires Valid()
      modifies this`bounded, this`dense
      ensures Valid()
      ensures bounded == (old(bounded) && Fits(size, alloc, end)) && dense == (old(dense) && inside)
    {
      hide Standing, Content;
      bounded := bounded && Fits(size, alloc, end);
      dense := dense && inside;
      InvWeaken(ioctx.pool, old(View()), View(), flat);
    }

    /** The file has got its new size; the allocation follows. */
    method Settle() returns (rc: int)
      requires ValidWith([]) && (dense ==> size <= |flat|)
      modifies this`alloc, this`version, this`story, this`landed, this`told, this`flat, ioctx`pool, ioctx`history, ioctx`refusals
      ensures Valid() && rc <= 0 && ioctx.Since(old(ioctx.Now())) && Longer(old(story), story)
      ensures flat == Resized(old(flat), size) && told == (old(told) || rc < 0)
      ensures ioctx.refusals == old(ioctx.refusals) + One(rc < 0)
      ensures rc == 0 ==> alloc == ShrunkAlloc(size, old(alloc)) && version == old(version) + One(alloc != old(alloc))
      ensures rc == 0 && old(bounded && landed) ==> Settled(ioctx.pool, alloc) && SecureIff(Within(ioctx.pool, alloc))
    {
      hide Evolves, Evolution, Steadiness, Standing, Content, RoundUp, ShrunkAlloc, Resized, At, Within, Settled, NoDangling, Onward, Longer;
      ContentPrefix(ioctx.pool, View(), flat, Resized(flat, size));
      flat := Resized(flat, size);
      rc := MaybeShrinkAlloc();
    }

    /** Records a new size; the file and the allocation follow. */
    method CommitSize(op: Op) returns (rc: int, ghost queued: seq<Handle>)
      requires Valid() && op.SetXattrs? && op.version == version + 1 && op.size.Some?
      requires op.alloc.Some? ==> AllocOk(op.alloc.value) && (bounded ==> alloc < op.alloc.value)
      requires bounded ==> Updated(View(), op).size <= Updated(View(), op).alloc
      requires dense ==> op.size.value <= size
      modifies this`size, this`alloc, this`version, this`sizeDirty, this`aios, this`story, this`landed, this`told
      modifies this`flat, ioctx`pool, ioctx`history, ioctx`refusals
      ensures Valid() && rc <= 0 && ioctx.Since(old(ioctx.Now()))
      ensures told == (old(told) || rc < 0) && ioctx.refusals == old(ioctx.refusals) + One(rc < 0)
      ensures aios == old(aios) + queued && Longer(old(story), story)
      ensures rc == 0 ==> size == op.size.value && !sizeDirty && flat == Resized(old(flat), size)
      ensures rc == 0 ==> var a := if op.alloc.Some? then op.alloc.value else old(alloc);
                          alloc == ShrunkAlloc(size, a) && version == old(version) + 1 + One(alloc != a)
      ensures rc < 0 ==> flat == old(flat) || flat == Resized(old(flat), op.size.value)
      ensures rc == 0 && op.alloc.None? && old(bounded && landed) ==>
                Settled(ioctx.pool, alloc) && SecureIff(Within(ioctx.pool, alloc))
    {
      hide Evolves, Evolution, Steadiness, Standing, Content, ShrunkAlloc, Resized, At, Shows, Within, Settled,
           NoDangling, Updated, Onward, Longer, Ioctx.CrashSafe, RoundUp, SecureIff, Secure, ValidWith, AllocOk, GrownAlloc;
      rc, queued := PushMetadata(op);
      if rc < 0 { return; }
      ghost var mid, moment := story, ioctx.Now();
      rc := Settle();
      LongerTrans(old(story), mid, story);
      OnwardTrans(old(ioctx.Now()), moment, ioctx.Now());
    }

    /** Grows the allocation before the file outgrows it, and records a new size if asked to. */
    method SetMetadata(newSize: nat, updateSize: bool) returns (rc: int, ghost queued: seq<Handle>)
      requires Valid()
      requires bounded ==> Fits(size, alloc, newSize)
      requires dense && updateSize ==> newSize <= size
      modifies this`size, this`alloc, this`version, this`sizeDirty, this`aios, this`story, this`landed, this`told
      modifies this`flat, ioctx`pool, ioctx`history, ioctx`refusals
      ensures Valid() && rc <= 0 && ioctx.Since(old(ioctx.Now()))
      ensures told == (old(told) || rc < 0)
      ensures ioctx.refusals == old(ioctx.refusals) + One(rc < 0)
      ensures aios == old(aios) + queued && Longer(old(story), story)
      ensures !updateSize && bounded ==> queued == []
      ensures !updateSize ==> size == old(size) && sizeDirty == old(sizeDirty) && flat == old(flat)
      ensures rc == 0 && !updateSize ==> alloc == AllocFor(old(size), old(alloc), newSize)
                                         && version == old(version) + One(newSize > old(alloc))
      ensures rc == 0 && updateSize ==> size == newSize && !sizeDirty && flat == Resized(old(flat), newSize)
      ensures rc == 0 && updateSize ==> var a := AllocFor(old(size), old(alloc), newSize);
                                        alloc == ShrunkAlloc(size, a) && version == old(version) + 1 + One(alloc != a)
      ensures rc < 0 ==> flat == old(flat) || flat == Resized(old(flat), newSize)
      ensures !updateSize ==> (landed ==> old(landed)) && (old(bounded && landed) ==> Secure())
      ensures !updateSize && old(landed) && !landed ==> Shows(ioctx.pool, old(alloc)) && old(alloc) < newSize
      ensures rc == 0 && updateSize && newSize <= old(alloc) && old(bounded && landed) ==>
                Settled(ioctx.pool, alloc) && SecureIff(Within(ioctx.pool, alloc))
    {
      hide Evolves, Evolution, Steadiness, Standing, Content, RoundUp, ShrunkAlloc, Resized, At, Shows, Within, Settled,
           NoDangling, Updated, Onward, Longer;
      OnwardNow(ioctx.Now());
      var newAlloc := alloc;
      if newSize > alloc {
        newAlloc := GrownAlloc(size);
      }
      InvAlloc(ioctx.pool, View(), []);
      InvUse(ioctx.pool, View(), []);
      LongerTrans(story, story, story);
      rc, queued := 0, [];
      if newSize > alloc || updateSize {
        var op := SetXattrs(if newSize > alloc then Some(newAlloc) else None,
                            if updateSize then Some(newSize) else None, version + 1);
        UpdatedIs(View(), op);
        if updateSize {
          rc, queued := CommitSize(op);
        } else {
          rc, queued := PushMetadata(op);
        }
      }
    }

    /** Waits for everything queued.  Reports, once, the first failure among the operations that earlier
        calls found to have ended; how those ended that it waits for itself it does not look at. */
    method Drain() returns (rc: int)
      requires Valid()
      modifies this`aios, this`aiosFailure, this`popped, this`story, this`told, ioctx`pool, ioctx`history
      ensures Valid() && rc <= 0 && ioctx.Since(old(ioctx.Now()))
      ensures PoolEvolves(old(ioctx.pool), ioctx.pool)
      ensures told == (old(told) || rc < 0)
      ensures (old(Secure()) ==> Secure()) && (old(!ioctx.CrashSafe()) ==> !ioctx.CrashSafe())
      ensures rc == old(aiosFailure) == FirstFailure(ioctx.pool, old(popped))
      ensures aios == [] && popped == [] && aiosFailure == 0
      ensures story == old(story.(reported := story.reported + popped, drained := story.drained + aios))
      ensures Quiet(ioctx.pool) <==> AllDone(ioctx.pool, story.strays)
      ensures !told ==> Quiet(ioctx.pool) && (Clean(ioctx.pool) <==> NoneFailed(ioctx.pool, story.drained + story.awaited))
      ensures Quiet(ioctx.pool) ==> (StoresVersion(ioctx.pool, version) <==> !LastUpdateFailed(At(ioctx.pool, 0)))
      ensures Quiet(ioctx.pool) && Clean(ioctx.pool) && !sizeDirty ==> AtRest(ioctx.pool, size, alloc, version)
      ensures Quiet(ioctx.pool) && Clean(ioctx.pool) && dense && !told ==> Stores(ioctx.pool, flat)
    {
      hide Evolution, Steadiness, Standing, Content, FirstFailure, RoundUp, AtRest, Stores, Quiet, Clean, AllDone, NoneFailed,
           LastUpdateFailed, StoresVersion, Onward;
      InvUse(ioctx.pool, View(), []);
      rc := WaitForAios(true, Secure());
      UnsafeStays(old(ioctx.Now()), ioctx.Now());
      InvUse(ioctx.pool, View(), []);
      if rc < 0 {
        InvTold(ioctx.pool, View(), flat);
        Tell();
      }
      InvReport(ioctx.pool, View(), flat);
      Reported();
      NothingLost(ioctx.pool, View(), flat);
      if !told { CleanExact(ioctx.pool, View()); }
    }

    /** What was remembered has been reported. */
    method Reported()
      modifies this`aiosFailure, this`popped, this`story
      ensures View() == Reset(old(View()))
    {
      aiosFailure := 0;
      story := story.(reported := story.reported + popped);
      popped := [];
    }

    /** Makes everything durable, if nothing fails.  Unless it is refused the update of a size that is out of
        date, it reports the first failure that earlier calls found and forgets it; a failure that only the
        waiting would show goes unseen. */
    method Flush() returns (rc: int)
      requires Valid()
      modifies this`size, this`alloc, this`version, this`sizeDirty, this`aios, this`aiosFailure
      modifies this`popped, this`story, this`landed, this`told, this`flat, ioctx`pool, ioctx`history, ioctx`refusals
      ensures Valid() && rc <= 0 && ioctx.Since(old(ioctx.Now()))
      ensures told == (old(told) || (rc < 0 && !blocklisted))
      ensures flat == old(flat)
      ensures blocklisted ==> rc == EBLOCKLISTED && View() == old(View()) && ioctx.Now() == old(ioctx.Now())
      ensures ioctx.refusals == old(ioctx.refusals) || (ioctx.refusals == old(ioctx.refusals) + 1 && old(sizeDirty))
      ensures !blocklisted && ioctx.refusals > old(ioctx.refusals) ==> Kept(old(View()), rc)
      ensures !blocklisted && ioctx.refusals == old(ioctx.refusals) ==>
                HasReported(old(View()), rc) && (Quiet(ioctx.pool) <==> AllDone(ioctx.pool, story.strays)) && !sizeDirty
      ensures !blocklisted && ioctx.refusals == old(ioctx.refusals) ==>
                alloc == if old(sizeDirty) then ShrunkAlloc(size, AllocFor(size, old(alloc), size)) else old(alloc)
      ensures rc == 0 && !told ==> Quiet(ioctx.pool)
                                   && (Clean(ioctx.pool) <==> NoneFailed(ioctx.pool, story.drained + story.awaited))
      ensures rc == 0 && Quiet(ioctx.pool) ==> (StoresVersion(ioctx.pool, version) <==> !LastUpdateFailed(At(ioctx.pool, 0)))
      ensures rc == 0 && Quiet(ioctx.pool) && Clean(ioctx.pool) ==> AtRest(ioctx.pool, size, alloc, version)
      ensures rc == 0 && Quiet(ioctx.pool) && Clean(ioctx.pool) && dense && !told ==> Stores(ioctx.pool, flat)
      ensures !blocklisted && ioctx.refusals == old(ioctx.refusals) && old(bounded && landed) ==>
                SecureIff(Within(ioctx.pool, alloc))
    {
      hide Evolution, Evolves, Steadiness, Standing, Content, FirstFailure, RoundUp, ShrunkAlloc, AtRest, Stores, Quiet, Clean,
           Within, Settled, NoDangling, AllDone, NoneFailed, LastUpdateFailed, StoresVersion, Onward, Remembers, Ioctx.CrashSafe;
      if blocklisted {
        OnwardNow(ioctx.Now());
        return EBLOCKLISTED;
      }
      rc := RecordSize();
      if rc < 0 { return; }
      ghost var mid, kept := ioctx.Now(), View();
      rc := Drain();
      OnwardTrans(old(ioctx.Now()), mid, ioctx.Now());
      ReportedSince(old(View()), kept);
      if Settled(mid.pool, alloc) { WithinStays(mid.pool, ioctx.pool, alloc); }
    }

    /** Brings the size in the attributes up to date, if it is not. */
    method RecordSize() returns (rc: int)
      requires Valid()
      modifies this`size, this`alloc, this`version, this`sizeDirty, this`aios
      modifies this`story, this`landed, this`told, this`flat, ioctx`pool, ioctx`history, ioctx`refusals
      ensures Valid() && rc <= 0 && ioctx.Since(old(ioctx.Now()))
      ensures ioctx.refusals == old(ioctx.refusals) + One(rc < 0) && (rc < 0 ==> old(sizeDirty))
      ensures told == (old(told) || rc < 0) && flat == old(flat)
      ensures Remembers(old(View()), View())
      ensures rc == 0 ==> !sizeDirty
      ensures rc == 0 ==> alloc == if old(sizeDirty) then ShrunkAlloc(size, AllocFor(size, old(alloc), size)) else old(alloc)
      ensures rc == 0 && old(bounded && landed) ==> Settled(ioctx.pool, alloc) && SecureIff(Within(ioctx.pool, alloc))
    {
      hide Evolution, Steadiness, Standing, Content, RoundUp, ShrunkAlloc, Within, Settled, NoDangling, Shows, Resized, Onward,
           Remembers, Ioctx.CrashSafe;
      OnwardNow(ioctx.Now());
      RemembersSame(View(), View());
      InvUse(ioctx.pool, View(), []);
      if bounded && landed { WithinSafe(ioctx.pool, View()); }
      rc := 0;
      if sizeDirty {
        InvAlloc(ioctx.pool, View(), []);
        ResizedSame(flat);
        ghost var queued;
        rc, queued := SetMetadata(size, true);
        RemembersSame(old(View()), View());
      }
    }

    /** What was found, reported and waited for is as it was; operations may have been added to the queue. */
    ghost predicate Kept(m: Mem, rc: int)
      reads this
    {
      rc < 0 && told && popped == m.popped && aiosFailure == m.failure && Remembers(m, View())
    }

    /** The first failure among the operations that were found to have ended has been reported, and the rest of
        the queue was waited for. */
    ghost predicate HasReported(m: Mem, rc: int)
      reads this, ioctx
    {
      && rc == m.failure == FirstFailure(ioctx.pool, m.popped)
      && aios == [] && popped == [] && aiosFailure == 0
      && story.reported == m.story.reported + m.popped
      && m.story.drained + m.aios <= story.drained
    }

    /** An operation is on its way. */
    method Push(h: Handle)
      modifies this`aios
      ensures View() == old(View()).(aios := old(aios) + [h])
    {
      aios := aios + [h];
    }

    /** Queues the next piece of a write, or is refused. */
    method SubmitPiece(data: seq<Byte>, off: nat, w: nat, ext: Extent, ghost shown: Option<nat>, ghost safe: bool)
      returns (rc: int)
      requires w < |data| && ext == NextExtent(off + w, |data| - w) && (dense ==> off <= |flat|)
      requires Inv(ioctx.pool, View(), []) && ContentOk(ioctx.pool, View(), Written(flat, off, data[..w]))
      requires (bounded && landed ==> safe) && (shown.Some? ==> Shows(ioctx.pool, shown.value))
      requires safe ==> Secure() && shown.Some? && (off + |data| <= shown.value || off + |data| <= STRIPE)
      modifies this`aios, ioctx`pool, ioctx`history, ioctx`refusals
      ensures rc <= 0 && ioctx.Since(old(ioctx.Now()))
      ensures ioctx.refusals == old(ioctx.refusals) + One(rc < 0)
      ensures rc < 0 ==> aios == old(aios)
      ensures rc == 0 ==> |aios| == |old(aios)| + 1 && old(aios) <= aios
                          && PieceOf(ioctx.pool, aios[|old(aios)|], ext, off, data)
      ensures Inv(ioctx.pool, View(), [])
      ensures rc == 0 ==> ContentOk(ioctx.pool, View(), Written(flat, off, data[..w + ext.len]))
      ensures rc < 0 ==> ContentOk(ioctx.pool, View(), Written(flat, off, data[..w]))
      ensures safe ==> Secure()
      ensures rc < 0 ==> PoolEvolves(old(ioctx.pool), ioctx.pool)
      ensures rc == 0 ==> var op := Op.Write(ext.off, data[w..w + ext.len]);
                          && PoolEvolves(old(Enqueue(ioctx.pool, ext.stripe, op)), ioctx.pool)
                          && ioctx.pool in ioctx.history && op in At(ioctx.pool, ext.stripe).pending
    {
      hide Evolution, Evolves, Steadiness, Standing, Content, Written, Shows, NoDangling, At, Enqueue, NextHandle, Past,
           NextExtent, Onward, PieceOf;
      var op := Op.Write(ext.off, data[w..w + ext.len]);
      ghost var before, m := ioctx.pool, View();
      if safe { PieceSteady(before, shown.value, off + w, ext, op, off + |data|); }
      var h;
      rc, h := ioctx.Submit(ext.stripe, op, safe);
      if rc < 0 {
        InvEvolves(before, ioctx.pool, m, [], Written(flat, off, data[..w]));
        return;
      }
      PieceWritten(before, ioctx.pool, m, flat, off, data, w, ext);
      PieceSent(before, ioctx.pool, ext, off, data, w);
      Push(h);
    }

    /** Queues the pieces of a write one object at a time, until one is refused.  Whether an extent dangles
        is decided by the allocation that the attributes show. */
    method SubmitWrites(data: seq<Byte>, off: nat, ghost shown: Option<nat>, ghost safe: bool) returns (w: nat)
      requires Valid() && (dense ==> off <= size)
      requires (bounded && landed ==> safe) && (shown.Some? ==> Shows(ioctx.pool, shown.value))
      requires safe ==> Secure() && shown.Some? && (off + |data| <= shown.value || off + |data| <= STRIPE)
      modifies this`aios, ioctx`pool, ioctx`history, ioctx`refusals
      ensures w <= |data| && ioctx.Since(old(ioctx.Now()))
      ensures ioctx.refusals == old(ioctx.refusals) + One(w < |data|)
      ensures old(aios) <= aios && Sent(ioctx.pool, aios[|old(aios)|..], off, data, w)
      ensures Inv(ioctx.pool, View(), []) && ContentOk(ioctx.pool, View(), Written(flat, off, data[..w]))
      ensures safe ==> Secure()
      ensures w > 0 && shown.Some? && Past(shown.value, off + w) ==> !ioctx.CrashSafe()
    {
      hide Evolution, Evolves, Steadiness, Standing, Content, Written, Shows, NoDangling, At, Past, Grows, Sent, PieceOf;
      w := 0;
      WrittenNothing(ioctx.pool, View(), flat, off, data[..w]);
      OnwardNow(ioctx.Now());
      SentNone(ioctx.pool, off, data);
      assert aios[|aios|..] == [];
      while |data| - w > 0
        invariant w <= |data| && ioctx.Since(old(ioctx.Now())) && ioctx.refusals == old(ioctx.refusals)
        invariant old(aios) <= aios && Sent(ioctx.pool, aios[|old(aios)|..], off, data, w)
        invariant Inv(ioctx.pool, View(), []) && ContentOk(ioctx.pool, View(), Written(flat, off, data[..w]))
        invariant (safe ==> Secure()) && (shown.Some? ==> Shows(ioctx.pool, shown.value))
        invariant w > 0 && shown.Some? && Past(shown.value, off + w) ==> !ioctx.CrashSafe()
      {
        var ext := NextExtent(off + w, |data| - w);
        ghost var before, sent := ioctx.Now(), aios[|old(aios)|..];
        var rc := SubmitPiece(data, off, w, ext, shown, safe);
        OnwardTrans(old(ioctx.Now()), before, ioctx.Now());
        if rc < 0 {
          SentStays(before, ioctx.Now(), sent, off, data, w);
          break;
        }
        SentMore(before, ioctx.Now(), sent, aios[|old(aios)| + |sent|], off, data, w, ext);
        assert aios[|old(aios)|..] == sent + [aios[|old(aios)| + |sent|]];
        if shown.Some? {
          PieceDangles(before.pool, ioctx.pool, shown.value, off + w, ext, Op.Write(ext.off, data[w..w + ext.len]));
        }
        w := w + ext.len;
      }
    }

    /** Takes finished operations off the queue and lets the file reach up to `end`. */
    method ExtendSize(end: nat, ghost safe: bool)
      requires ValidWith([]) && Tight(View()) && (bounded && landed ==> safe) && (safe ==> Secure())
      requires (bounded ==> end <= alloc) && |flat| == if size < end then end else size
      modifies this`size, this`sizeDirty, this`aios, this`aiosFailure, this`popped, this`story, ioctx`pool, ioctx`history
      ensures Valid() && ioctx.Since(old(ioctx.Now())) && (safe ==> Secure())
      ensures popped + aios == old(popped + aios) && story == old(story) && Remembers(old(View()), View())
      ensures Looked(ioctx.pool, aios)
      ensures sizeDirty == (old(sizeDirty) || old(size) < end)
    {
      hide Evolution, Standing, Content, RoundUp, Steadiness, Onward, Looked;
      var _ := WaitForAios(false, safe);
      if size < end {
        InvGrown(ioctx.pool, View(), flat, end);
        size := end;
        sizeDirty := true;
      }
    }

    /** Writes once the allocation is as large as it gets. */
    method WriteAllocated(data: seq<Byte>, off: nat, ghost shown: Option<nat>, ghost safe: bool) returns (w: nat)
      requires Valid() && (dense ==> off <= size) && (bounded ==> off + |data| <= alloc)
      requires (bounded && landed ==> safe) && (shown.Some? ==> Shows(ioctx.pool, shown.value))
      requires safe ==> Secure() && shown.Some? && (off + |data| <= shown.value || off + |data| <= STRIPE)
      modifies this`size, this`sizeDirty, this`aios, this`aiosFailure, this`popped, this`story, this`told, this`flat
      modifies ioctx`pool, ioctx`history, ioctx`refusals
      ensures Valid() && w <= |data| && ioctx.Since(old(ioctx.Now()))
      ensures ioctx.refusals == old(ioctx.refusals) + One(w < |data|)
      ensures story == old(story) && Remembers(old(View()), View()) && Looked(ioctx.pool, aios)
      ensures Sent(ioctx.pool, (popped + aios)[|old(popped + aios)|..], off, data, w)
      ensures told == (old(told) || w < |data|)
      ensures flat == Written(old(flat), off, data)
      ensures sizeDirty == (old(sizeDirty) || old(size) < off + |data|)
      ensures safe ==> Secure()
      ensures w == |data| > 0 && shown.Some? && Past(shown.value, off + |data|) ==> !ioctx.CrashSafe()
    {
      hide Evolution, Evolves, Steadiness, Standing, Content, Written, RoundUp, At, NoDangling, Shows, Past, Grows, Remembers,
           Sent, Looked;
      w := QueueData(data, off, shown, safe);
      ghost var mid, moment := View(), ioctx.Now();
      ghost var sent := aios[|old(aios)|..];
      assert popped + aios == old(popped + aios) + sent;
      ExtendSize(off + |data|, safe);
      RemembersTrans(old(View()), mid, View());
      OnwardTrans(old(ioctx.Now()), moment, ioctx.Now());
      SentStays(moment, ioctx.Now(), sent, off, data, w);
    }

    /** Queues the pieces of a write; the file is the new one, though a piece may have been refused. */
    method QueueData(data: seq<Byte>, off: nat, ghost shown: Option<nat>, ghost safe: bool) returns (w: nat)
      requires Valid() && (dense ==> off <= size)
      requires (bounded && landed ==> safe) && (shown.Some? ==> Shows(ioctx.pool, shown.value))
      requires safe ==> Secure() && shown.Some? && (off + |data| <= shown.value || off + |data| <= STRIPE)
      modifies this`aios, this`told, this`flat, ioctx`pool, ioctx`history, ioctx`refusals
      ensures ValidWith([]) && Tight(View()) && w <= |data| && ioctx.Since(old(ioctx.Now()))
      ensures ioctx.refusals == old(ioctx.refusals) + One(w < |data|)
      ensures Remembers(old(View()), View())
      ensures old(aios) <= aios && Sent(ioctx.pool, aios[|old(aios)|..], off, data, w)
      ensures told == (old(told) || w < |data|) && flat == Written(old(flat), off, data)
      ensures safe ==> Secure()
      ensures w == |data| > 0 && shown.Some? && Past(shown.value, off + |data|) ==> !ioctx.CrashSafe()
    {
      hide Evolution, Evolves, Steadiness, Standing, Content, Written, RoundUp, At, NoDangling, Shows, Past, Onward, Sent;
      w := SubmitWrites(data, off, shown, safe);
      if w < |data| {
        InvTold(ioctx.pool, View(), Written(flat, off, data));
        Tell();
      } else {
        assert data[..w] == data;
      }
      flat := Written(flat, off, data);
    }

    /** Grows the allocation for a write up to byte `end`. */
    method Reserve(end: nat) returns (rc: int)
      requires Valid() && (bounded ==> Fits(size, alloc, end))
      modifies this`size, this`alloc, this`version, this`sizeDirty, this`aios, this`story, this`landed, this`told
      modifies this`flat, ioctx`pool, ioctx`history, ioctx`refusals
      ensures Valid() && rc <= 0 && ioctx.Since(old(ioctx.Now()))
      ensures told == (old(told) || rc < 0)
      ensures ioctx.refusals == old(ioctx.refusals) + One(rc < 0)
      ensures size == old(size) && sizeDirty == old(sizeDirty) && flat == old(flat)
      ensures Remembers(old(View()), View()) && (bounded ==> aios == old(aios))
      ensures rc == 0 ==> alloc == AllocFor(old(size), old(alloc), end)
      ensures (landed ==> old(landed)) && (old(bounded && landed) ==> Secure())
      ensures landed ==> Shows(ioctx.pool, alloc)
      ensures old(landed) && !landed ==> Shows(ioctx.pool, old(alloc)) && old(alloc) < end
    {
      hide Standing, Content, RoundUp, Shows, Steadiness, Onward;
      rc := 0;
      OnwardNow(ioctx.Now());
      InvUse(ioctx.pool, View(), []);
      if alloc < end {
        ghost var queued;
        rc, queued := SetMetadata(end, false);
      }
      if landed { ShowsMemory(ioctx.pool, View(), []); }
    }

    /** Writes `data` at `off`: the flat file becomes the one with `data` spliced in.  From a state in which
        no extent dangles, a write that is queued in full leaves none dangling exactly if it fitted the
        growth of the allocation, or, if that growth failed, if it stays within the first object.  Nothing that
        was found to have failed is forgotten, and what was queued stays so until it is found to have ended. */
    method Write(data: seq<Byte>, off: nat) returns (rc: int)
      requires Valid()
      modifies this`size, this`alloc, this`version, this`sizeDirty, this`aios, this`aiosFailure
      modifies this`popped, this`story, this`landed, this`told, this`bounded, this`dense, this`flat
      modifies ioctx`pool, ioctx`history, ioctx`refusals
      ensures Valid() && rc <= |data| && ioctx.Since(old(ioctx.Now()))
      ensures blocklisted ==> rc == EBLOCKLISTED && View() == old(View()) && flat == old(flat) && ioctx.Now() == old(ioctx.Now())
      ensures !blocklisted ==> ioctx.refusals == old(ioctx.refusals) + One(rc < |data|)
      ensures !blocklisted ==> bounded == (old(bounded) && Fits(old(size), old(alloc), off + |data|))
      ensures !blocklisted ==> dense == (old(dense) && off <= old(size))
      ensures !blocklisted ==> told == (old(told) || rc < |data|)
      ensures Remembers(old(View()), View())
      ensures (SpaceClean(ioctx.pool) ==> landed) && (bounded && !told && landed ==> SpaceClean(ioctx.pool))
      ensures rc < 0 ==> flat == old(flat)
      ensures rc >= 0 ==> flat == Written(old(flat), off, data) && alloc == AllocFor(old(size), old(alloc), off + |data|)
      ensures rc >= 0 ==> sizeDirty == (old(sizeDirty) || old(size) < off + |data|)
      ensures rc >= 0 ==> Looked(ioctx.pool, aios)
      ensures rc >= 0 ==> exists n :: |old(popped + aios)| <= n <= |popped + aios| && (bounded ==> n == |old(popped + aios)|)
                                      && Sent(ioctx.pool, (popped + aios)[n..], off, data, rc)
      ensures old(bounded && landed) && rc == |data| > 0 ==>
                (ioctx.CrashSafe() <==> if landed then Fits(old(size), old(alloc), off + |data|) else off + |data| <= STRIPE)
    {
      hide Evolution, Evolves, Steadiness, Standing, Content, Written, RoundUp, NoDangling, At, Fits, AllocFor, Onward, SpaceClean,
           Remembers, Valid, FirstFailure, Sent, Looked;
      if blocklisted {
        rc := EBLOCKLISTED;
        RemembersSame(View(), View());
        OnwardNow(ioctx.Now());
      } else {
        ghost var was := bounded && landed;
        Note(off + |data|, off <= size);
        RemembersSame(old(View()), View());
        ghost var noted := View();
        ghost var n;
        rc, n := Store(data, off, was);
        RemembersTrans(old(View()), noted, View());
      }
      ValidLanded();
    }

    /** Whether every removal and every update of the allocation worked, as far as it was waited for. */
    lemma ValidLanded()
      requires Valid()
      ensures SpaceClean(ioctx.pool) ==> landed
      ensures bounded && !told && landed ==> SpaceClean(ioctx.pool)
    {
      hide SpaceClean, Content, RoundUp, Steadiness, FirstFailure;
      LandedExact(ioctx.pool, View());
    }

    /** Grows the allocation, and writes. */
    method Store(data: seq<Byte>, off: nat, ghost was: bool) returns (rc: int, ghost n: nat)
      requires Valid() && (bounded ==> Fits(size, alloc, off + |data|)) && (dense ==> off <= size)
      requires (bounded && landed ==> was) && (was ==> landed && bounded == Fits(size, alloc, off + |data|))
      modifies this`size, this`alloc, this`version, this`sizeDirty, this`aios, this`aiosFailure
      modifies this`popped, this`story, this`landed, this`told, this`flat, ioctx`pool, ioctx`history, ioctx`refusals
      ensures Valid() && rc <= |data| && ioctx.Since(old(ioctx.Now()))
      ensures told == (old(told) || rc < |data|) && ioctx.refusals == old(ioctx.refusals) + One(rc < |data|)
      ensures Remembers(old(View()), View()) && (rc < 0 ==> flat == old(flat))
      ensures rc >= 0 ==> flat == Written(old(flat), off, data) && alloc == AllocFor(old(size), old(alloc), off + |data|)
                          && sizeDirty == (old(sizeDirty) || old(size) < off + |data|) && Looked(ioctx.pool, aios)
      ensures rc >= 0 ==> |old(popped + aios)| <= n <= |popped + aios| && (bounded ==> n == |old(popped + aios)|)
                          && Sent(ioctx.pool, (popped + aios)[n..], off, data, rc)
      ensures was && rc == |data| > 0 ==>
                (ioctx.CrashSafe() <==> if landed then Fits(old(size), old(alloc), off + |data|) else off + |data| <= STRIPE)
    {
      hide Evolution, Evolves, Steadiness, Standing, Content, Written, RoundUp, NoDangling, At, Fits, AllocFor, Shows,
           Onward, Remembers, Tight, Ioctx.CrashSafe, Sent, Looked;
      InvAlloc(ioctx.pool, View(), []);
      n := 0;
      rc := Reserve(off + |data|);
      if rc == 0 {
        ghost var mid, moment := View(), ioctx.Now();
        n := |popped + aios|;
        RemembersLength(old(View()), mid);
        rc := Fill(data, off, old(alloc), old(landed), was);
        RemembersLength(mid, View());
        RemembersTrans(old(View()), mid, View());
        OnwardTrans(old(ioctx.Now()), moment, ioctx.Now());
      }
    }

    /** Writes after the allocation was grown from `prior`, or was to be. */
    method Fill(data: seq<Byte>, off: nat, ghost prior: nat, ghost had: bool, ghost was: bool) returns (w: nat)
      requires Valid() && AllocOk(prior) && alloc == AllocFor(size, prior, off + |data|)
      requires (bounded ==> Fits(size, prior, off + |data|)) && (dense ==> off <= size)
      requires (landed ==> had && Shows(ioctx.pool, alloc)) && (had && !landed ==> Shows(ioctx.pool, prior) && prior < off + |data|)
      requires (bounded && landed ==> was) && (was ==> had && bounded == Fits(size, prior, off + |data|))
      requires bounded && had && !landed ==> Secure()
      modifies this`size, this`sizeDirty, this`aios, this`aiosFailure, this`popped, this`story, this`told, this`flat
      modifies ioctx`pool, ioctx`history, ioctx`refusals
      ensures Valid() && w <= |data| && ioctx.Since(old(ioctx.Now()))
      ensures ioctx.refusals == old(ioctx.refusals) + One(w < |data|)
      ensures Remembers(old(View()), View()) && Looked(ioctx.pool, aios)
      ensures Sent(ioctx.pool, (popped + aios)[|old(popped + aios)|..], off, data, w)
      ensures told == (old(told) || w < |data|) && flat == Written(old(flat), off, data)
      ensures sizeDirty == (old(sizeDirty) || old(size) < off + |data|)
      ensures was && w == |data| > 0 ==>
                (ioctx.CrashSafe() <==> if landed then Fits(old(size), prior, off + |data|) else off + |data| <= STRIPE)
    {
      hide Evolution, Evolves, Steadiness, Standing, Content, Written, RoundUp, NoDangling, At, Fits, AllocFor, Shows, Past,
           Onward, Remembers, Tight, Ioctx.CrashSafe, Sent, Looked;
      var end := off + |data|;
      GrowthCoversExactly(size, prior, end);
      InvUse(ioctx.pool, View(), []);
      ghost var shown := if landed then Some(alloc) else if had then Some(prior) else None;
      WriteEnds(size, prior, end);
      w := WriteAllocated(data, off, shown, was && (if landed then Fits(size, prior, end) else end <= STRIPE));
    }

    /** Cuts the file off, or says that it is longer. */
    method Truncate(n: nat) returns (rc: int)
      requires Valid()
      modifies this`size, this`alloc, this`version, this`sizeDirty, this`aios, this`story, this`landed
      modifies this`told, this`bounded, this`dense, this`flat, ioctx`pool, ioctx`history, ioctx`refusals
      ensures Valid() && rc <= 0 && ioctx.Since(old(ioctx.Now()))
      ensures Remembers(old(View()), View())
      ensures blocklisted ==> rc == EBLOCKLISTED && View() == old(View()) && flat == old(flat) && ioctx.Now() == old(ioctx.Now())
      ensures !blocklisted ==> ioctx.refusals == old(ioctx.refusals) + One(rc < 0)
      ensures !blocklisted ==> bounded == (old(bounded) && Fits(old(size), old(alloc), n))
      ensures !blocklisted ==> dense == (old(dense) && n <= old(size))
      ensures !blocklisted ==> told == (old(told) || rc < 0)
      ensures rc == 0 ==> flat == Resized(old(flat), n) && !sizeDirty
      ensures rc == 0 ==> var a := AllocFor(old(size), old(alloc), n);
                          alloc == ShrunkAlloc(n, a) && version == old(version) + 1 + One(alloc != a)
      ensures rc < 0 ==> flat == old(flat) || flat == Resized(old(flat), n)
      ensures rc == 0 && n <= old(alloc) && old(bounded && landed) ==> SecureIff(Within(ioctx.pool, alloc))
    {
      hide Standing, Content, RoundUp, ShrunkAlloc, Within, NoDangling, Shows, Onward;
      OnwardNow(ioctx.Now());
      if blocklisted { return EBLOCKLISTED; }
      Note(n, n <= size);
      ghost var queued;
      rc, queued := SetMetadata(n, true);
    }

    /** Reads a range: what is stored of it in each object, once everything queued there has landed, one after
        the other.  A piece whose read failed is left out without a word; the call fails only if a request is
        refused. */
    method Read(len: nat, off: nat) returns (rc: int, data: seq<Byte>, ghost lost: seq<bool>)
      requires Valid()
      modifies ioctx
      ensures Valid() && ioctx.Since(old(ioctx.Now()))
      ensures blocklisted ==> rc == EBLOCKLISTED && ioctx.Now() == old(ioctx.Now())
      ensures !blocklisted ==> ioctx.refusals == old(ioctx.refusals) + One(rc < 0)
      ensures rc >= 0 ==> rc == |data| <= len && |lost| == |Extents(off, len)|
      ensures rc >= 0 ==> (true in lost <==> ioctx.misreads > old(ioctx.misreads))
      ensures rc >= 0 ==> AllStill(ioctx.pool, Extents(off, len))
      ensures rc >= 0 ==> data == CollectedBut(ioctx.pool, Extents(off, len), lost)
      ensures rc >= 0 && Clean(ioctx.pool) && true !in lost && off + len <= size && dense && !told ==>
                data == flat[off..off + len]
    {
      hide Evolution, Evolves, Steadiness, Standing, Content, Clean, RoundUp, At, Extents, Collected, CollectedBut, Onward, AllStill;
      data, lost := [], [];
      if blocklisted {
        OnwardNow(ioctx.Now());
        return EBLOCKLISTED, [], [];
      }
      var pieces := CutRange(off, len);
      LengthOfExtents(off, len);
      rc, data, lost := ReadPieces(pieces);
      if rc < 0 { return; }
      if true !in lost { NoneLost(ioctx.pool, pieces, lost); }
      if off + len <= size { InsideRead(ioctx.pool, View(), flat, off, len); }
      rc := |data|;
    }

    /** Reads one piece after the other, until one is refused. */
    method ReadPieces(pieces: seq<Extent>) returns (rc: int, data: seq<Byte>, ghost lost: seq<bool>)
      requires ValidWith([])
      modifies ioctx
      ensures ValidWith([]) && ioctx.Since(old(ioctx.Now()))
      ensures rc <= 0 && ioctx.refusals == old(ioctx.refusals) + One(rc < 0)
      ensures rc == 0 ==> |data| <= Length(pieces) && |lost| == |pieces|
      ensures rc == 0 ==> (true in lost <==> ioctx.misreads > old(ioctx.misreads))
      ensures rc == 0 ==> AllStill(ioctx.pool, pieces) && data == CollectedBut(ioctx.pool, pieces, lost)
    {
      hide Evolution, Evolves, Steadiness, Standing, Content, At, Slice, CollectedBut, Onward, AllStill;
      rc, data, lost := 0, [], [];
      OnwardNow(ioctx.Now());
      assert pieces[..0] == [] && pieces[0..] == pieces;
      CollectedNone(ioctx.pool);
      for i := 0 to |pieces|
        invariant ValidWith([]) && |data| + Length(pieces[i..]) <= Length(pieces) && |lost| == i && ioctx.Since(old(ioctx.Now()))
        invariant old(ioctx.misreads) <= ioctx.misreads && (true in lost <==> ioctx.misreads > old(ioctx.misreads))
        invariant rc == 0 && ioctx.refusals == old(ioctx.refusals)
        invariant AllStill(ioctx.pool, pieces[..i]) && data == CollectedBut(ioctx.pool, pieces[..i], lost)
      {
        var ext := pieces[i];
        assert pieces[i..][0] == ext && pieces[i..][1..] == pieces[i + 1..] && pieces[..i + 1] == pieces[..i] + [ext];
        ghost var before := ioctx.Now();
        InvUse(before.pool, View(), []);
        var bytes;
        ghost var failed;
        rc, bytes, failed := ioctx.ReadObject(ext.stripe, ext.off, ext.len, bounded && landed);
        OnwardTrans(old(ioctx.Now()), before, ioctx.Now());
        InvEvolves(before.pool, ioctx.pool, View(), [], flat);
        if rc < 0 { return; }
        PieceRead(before.pool, ioctx.pool, pieces[..i], ext, data, bytes, lost, failed);
        data, lost := data + bytes, lost + [failed];
      }
      assert pieces[..|pieces|] == pieces;
    }

    /** Removes the file.  A failed removal of one of its objects is not noticed: when the call succeeds,
        nothing of the file is left, and nothing will reappear, exactly if no extent dangled on the way.  It
        fails only for a failure found before, for a request that is refused, or with the first object. */
    method Remove() returns (rc: int)
      requires Valid()
      modifies this`size, this`alloc, this`version, this`sizeDirty, this`aios, this`aiosFailure
      modifies this`popped, this`story, this`landed, this`told, this`flat, ioctx`pool, ioctx`history, ioctx`refusals
      ensures rc <= 0
      ensures blocklisted ==> rc == EBLOCKLISTED && ioctx.Now() == old(ioctx.Now())
      ensures !blocklisted && old(aiosFailure) != 0 ==> rc == old(aiosFailure) && PoolEvolves(old(ioctx.pool), ioctx.pool)
      ensures rc < 0 && !blocklisted && old(aiosFailure) == 0 && ioctx.refusals == old(ioctx.refusals) ==>
                var done := At(ioctx.pool, 0).done;
                done != [] && Subject(done[|done| - 1]) == Op.Remove && ReturnCode(done[|done| - 1]) == rc
      ensures rc == 0 ==> !Occupied(At(ioctx.pool, 0)) && ioctx.refusals == old(ioctx.refusals)
      ensures rc == 0 && old(bounded && landed) ==> (ioctx.CrashSafe() <==> forall k :: !Occupied(At(ioctx.pool, k)))
      ensures bounded && landed ==> ioctx.CrashSafe()
    {
      hide Evolution, Evolves, Steadiness, Standing, Content, FirstFailure, RoundUp, AtRest, Stores, Occupied, Clean, Quiet,
           Within, Settled, Shows, NoDangling, Onward, AllDone, NoneFailed, LastUpdateFailed, StoresVersion, Ioctx.CrashSafe,
           ReturnCode, Subject;
      if blocklisted { return EBLOCKLISTED; }
      rc := Drain();
      if rc < 0 { return; }
      InvAlloc(ioctx.pool, View(), []);
      ghost var queued;
      rc, queued := SetMetadata(0, true);
      if rc < 0 { return; }
      rc := RemoveFirst(old(bounded && landed));
    }

    /** Removes the first object, which is all that should be left. */
    method RemoveFirst(ghost was: bool) returns (rc: int)
      requires Valid() && alloc == 0 && (was ==> Settled(ioctx.pool, 0) && SecureIff(Within(ioctx.pool, 0)))
      modifies ioctx`pool, ioctx`history, ioctx`refusals
      ensures rc <= 0 && (bounded && landed ==> ioctx.CrashSafe())
      ensures rc < 0 && ioctx.refusals == old(ioctx.refusals) ==>
                var done := At(ioctx.pool, 0).done;
                done != [] && Subject(done[|done| - 1]) == Op.Remove && ReturnCode(done[|done| - 1]) == rc
      ensures rc == 0 ==> !Occupied(At(ioctx.pool, 0)) && ioctx.refusals == old(ioctx.refusals)
      ensures rc == 0 && was ==> (ioctx.CrashSafe() <==> forall k :: !Occupied(At(ioctx.pool, k)))
    {
      hide Evolution, Evolves, Steadiness, Standing, Content, Occupied, Within, Settled, NoDangling, Onward,
           Subject;
      ghost var before := ioctx.pool;
      ghost var safe := Secure() && Within(before, 0);
      if bounded && landed {
        InvUse(before, View(), []);
        WithinSafe(before, View());
      }
      if safe { SteadyLast(before); }
      ghost var refused;
      rc, refused := ioctx.Operate(0, Op.Remove, safe);
      UnsafeStays(old(ioctx.Now()), ioctx.Now());
      if !refused { LastRemoval(before, ioctx.pool); }
      if rc == 0 {
        FirstGone(before, ioctx.pool);
        if Settled(before, 0) { FirstRemoved(before, ioctx.pool); }
      }
    }

    /** Reads the attributes of the first object into memory. */
    method Open(ghost f: seq<Byte>) returns (rc: int)
      requires aios == [] && popped == [] && aiosFailure == 0
      modifies this`size, this`alloc, this`version, ioctx`pool, ioctx`history, ioctx`refusals
      modifies this`story, this`landed, this`told, this`bounded, this`dense, this`flat
      ensures blocklisted ==> rc == EBLOCKLISTED && View() == old(View()) && ioctx.Now() == old(ioctx.Now())
      ensures !blocklisted ==> ioctx.refusals == old(ioctx.refusals) + One(rc < 0 && At(ioctx.pool, 0).obj.Some?)
      ensures rc <= 0 && ioctx.Since(old(ioctx.Now()))
      ensures old(Handover(ioctx.pool, f)) ==> blocklisted || At(ioctx.pool, 0).obj.Some?
      ensures rc == 0 ==> At(ioctx.pool, 0).obj.Some? && At(ioctx.pool, 0).obj.value.xattrs == Xattrs(size, alloc, version)
      ensures old(Handover(ioctx.pool, f) && ioctx.CrashSafe()) ==> ioctx.CrashSafe()
      ensures rc == 0 && old(Handover(ioctx.pool, f) && ioctx.CrashSafe()) ==>
                Valid() && flat == f && dense && bounded && landed && !told && alloc == old(StoredAlloc(ioctx.pool))
    {
      hide Evolution, Evolves, Steadiness, Standing, Content, RoundUp, Handover, Slice, NoDangling, StoredAlloc, Occupied,
           Allocs, Final, Onward;
      OnwardNow(ioctx.Now());
      if blocklisted { return EBLOCKLISTED; }
      ghost var before := ioctx.pool;
      ghost var good := Handover(before, f) && ioctx.CrashSafe();
      if good { HandoverMeans(before, f); }
      var x;
      rc, x := ioctx.GetXattrs(0, good);
      if Handover(before, f) { HandoverFirst(before, ioctx.pool, f); }
      if rc < 0 { return; }
      Load(x, f);
      if good {
        HandoverStays(before, ioctx.pool, f);
        OpensStored(ioctx.pool, x);
        Resumes(ioctx.pool, f, sizeDirty);
      }
    }

    /** A new story begins with what the attributes say. */
    method Load(x: Xattrs, ghost f: seq<Byte>)
      modifies this`size, this`alloc, this`version
      modifies this`story, this`landed, this`told, this`bounded, this`dense, this`flat
      ensures aios == [] && popped == [] && aiosFailure == 0 ==> View() == Opened(x, sizeDirty)
      ensures size == x.size && alloc == x.alloc && version == x.version && flat == f
    {
      size, alloc, version := x.size, x.alloc, x.version;
      story, landed, told, bounded, dense, flat := UNTOLD, true, false, true, true, f;
    }
  }

  lemma LongerTrans(a: Story, b: Story, c: Story)
    ensures Longer(a, a)
    ensures Longer(a, b) && Longer(b, c) ==> Longer(a, c)
  {
  }

  /** What was on the queue when an update was added is reported and waited for with it. */
  lemma ReportedSince(m: Mem, n: Mem)
    requires Remembers(m, n) && n.popped == m.popped
    ensures m.story.drained + m.aios <= n.story.drained + n.aios && n.story.reported == m.story.reported
  {
    assert m.aios <= n.aios by { assert (n.popped + n.aios)[|m.popped|..] == n.aios && (m.popped + m.aios)[|m.popped|..] == m.aios; }
  }

  lemma OpensStored(p: Pool, x: Xattrs)
    requires At(p, 0).obj.Some? && x == At(p, 0).obj.value.xattrs
    ensures StoredAlloc(p) == x.alloc
  {
  }

  lemma HandoverFirst(p: Pool, q: Pool, f: seq<Byte>)
    requires Handover(p, f) && PoolEvolves(p, q)
    ensures At(q, 0).obj.Some?
  {
    HandoverStays(p, q, f);
  }

  lemma HandoverMeans(p: Pool, f: seq<Byte>)
    requires Handover(p, f)
    ensures Steady(p)
  {
  }

  lemma DoneCode(p: Pool, h: Handle)
    requires IsDone(p, h)
    ensures CodeOf(p, h) == ReturnCode(At(p, h.stripe).done[h.n])
  {
  }

  /** Cuts a range at object boundaries. */
  method CutRange(off: nat, len: nat) returns (pieces: seq<Extent>)
    ensures pieces == Extents(off, len)
  {
    hide NextExtent;
    pieces := [];
    var r := 0;
    while len - r > 0
      invariant r <= len && pieces + Extents(off + r, len - r) == Extents(off, len)
    {
      var ext := NextExtent(off + r, len - r);
      pieces := pieces + [ext];
      r := r + ext.len;
    }
  }

  /** What there is of one piece. */
  function Piece(o: Option<Object>, e: Extent): seq<Byte> {
    if o.None? then [] else Slice(o.value.data, e.off, e.len)
  }

  /** What a read of these pieces yields, once everything queued has landed. */
  function Collected(p: Pool, es: seq<Extent>): seq<Byte>
    decreases |es|
  {
    if es == [] then [] else Piece(Final(At(p, es[0].stripe)), es[0]) + Collected(p, es[1..])
  }

  /** The same if the reads of some pieces fail. */
  function CollectedBut(p: Pool, es: seq<Extent>, lost: seq<bool>): seq<Byte>
    requires |lost| == |es|
    decreases |es|
  {
    if es == [] then []
    else
      var n := |es| - 1;
      CollectedBut(p, es[..n], lost[..n]) + (if lost[n] then [] else Piece(Final(At(p, es[n].stripe)), es[n]))
  }

  /** The operation behind `h` writes the piece `e` of the data that goes to `off`. */
  predicate PieceOf(p: Pool, h: Handle, e: Extent, off: nat, d: seq<Byte>) {
    var w := e.stripe * STRIPE + e.off - off;
    && h.stripe == e.stripe && Submitted(p, h)
    && 0 <= w && w + e.len <= |d| && OpAt(p, h) == Op.Write(e.off, d[w..w + e.len])
  }

  /** The operations behind `hs` write the first `w` bytes of the data that goes to `off`, cut at object
      boundaries, in order. */
  predicate Sent(p: Pool, hs: seq<Handle>, off: nat, d: seq<Byte>, w: nat) {
    var es := Extents(off, |d|);
    && w <= |d| && |hs| <= |es| && es[|hs|..] == Extents(off + w, |d| - w)
    && forall i :: 0 <= i < |hs| ==> PieceOf(p, hs[i], es[i], off, d)
  }

  lemma SentNone(p: Pool, off: nat, d: seq<Byte>)
    ensures Sent(p, [], off, d, 0)
  {
  }

  lemma PieceStays(a: Moment, b: Moment, h: Handle, e: Extent, off: nat, d: seq<Byte>)
    requires Onward(a, b) && PieceOf(a.pool, h, e, off, d)
    ensures PieceOf(b.pool, h, e, off, d)
  {
    HandleKept(a, b, h);
  }

  lemma SentStays(a: Moment, b: Moment, hs: seq<Handle>, off: nat, d: seq<Byte>, w: nat)
    requires Onward(a, b) && Sent(a.pool, hs, off, d, w)
    ensures Sent(b.pool, hs, off, d, w)
  {
    hide Onward, PieceOf, Extents;
    var es := Extents(off, |d|);
    forall i | 0 <= i < |hs| ensures PieceOf(b.pool, hs[i], es[i], off, d) { PieceStays(a, b, hs[i], es[i], off, d); }
  }

  lemma SentMore(a: Moment, b: Moment, hs: seq<Handle>, h: Handle, off: nat, d: seq<Byte>, w: nat, e: Extent)
    requires Onward(a, b) && Sent(a.pool, hs, off, d, w) && w < |d| && e == NextExtent(off + w, |d| - w)
    requires PieceOf(b.pool, h, e, off, d)
    ensures Sent(b.pool, hs + [h], off, d, w + e.len)
  {
    hide Onward, PieceOf;
    SentStays(a, b, hs, off, d, w);
    var es := Extents(off, |d|);
    assert es[|hs|..] == [e] + Extents(off + w + e.len, |d| - w - e.len);
    assert es[|hs|] == es[|hs|..][0] == e && es[|hs| + 1..] == es[|hs|..][1..];
    forall i | 0 <= i < |hs| + 1 ensures PieceOf(b.pool, (hs + [h])[i], es[i], off, d) { }
  }

  /** All of it, exactly if there is a piece for each. */
  lemma SentAll(p: Pool, hs: seq<Handle>, off: nat, d: seq<Byte>, w: nat)
    requires Sent(p, hs, off, d, w)
    ensures w == |d| <==> |hs| == |Extents(off, |d|)|
  {
    hide PieceOf;
    var es := Extents(off, |d|);
    assert |es[|hs|..]| == |es| - |hs|;
  }

  lemma PieceSent(p: Pool, q: Pool, e: Extent, off: nat, d: seq<Byte>, w: nat)
    requires w < |d| && e == NextExtent(off + w, |d| - w)
    requires PoolEvolves(Enqueue(p, e.stripe, Op.Write(e.off, d[w..w + e.len])), q)
    ensures PieceOf(q, NextHandle(p, e.stripe), e, off, d)
  {
    hide Evolution, OpAt;
    var op := Op.Write(e.off, d[w..w + e.len]);
    EnqueueHandle(p, e.stripe, op, NextHandle(p, e.stripe));
    EvolvesHandle(Enqueue(p, e.stripe, op), q, NextHandle(p, e.stripe));
  }

  lemma WrittenNothing(p: Pool, m: Mem, f: seq<Byte>, off: nat, d: seq<Byte>)
    requires ContentOk(p, m, f) && (m.dense ==> off <= |f|) && d == []
    ensures ContentOk(p, m, Written(f, off, d))
  {
    if m.dense { assert Splice(f, off, []) == f; }
  }

  /** One more piece of a write is queued. */
  lemma PieceWritten(p: Pool, q: Pool, m: Mem, f: seq<Byte>, off: nat, d: seq<Byte>, w: nat, e: Extent)
    requires w < |d| && e == NextExtent(off + w, |d| - w)
    requires Inv(p, m, []) && ContentOk(p, m, Written(f, off, d[..w]))
    requires (Safe(m) ==> Steady(q)) && (m.dense ==> off <= |f|)
    requires PoolEvolves(Enqueue(p, e.stripe, Write(e.off, d[w..w + e.len])), q)
    ensures var n := m.(aios := m.aios + [NextHandle(p, e.stripe)]);
            Inv(q, n, []) && ContentOk(q, n, Written(f, off, d[..w + e.len]))
  {
    hide Evolution, Evolves, Standing, Content, Final, Clean, Steadiness;
    var op := Write(e.off, d[w..w + e.len]);
    var p' := Enqueue(p, e.stripe, op);
    var n := m.(aios := m.aios + [NextHandle(p, e.stripe)]);
    WriteSubmitted(p, q, m, e.stripe, op);
    if off <= |f| {
      ContentWrite(p, m, f, off, d, w, e);
    } else {
      ContentNone(p', m);
    }
    ContentEvolves(p', q, m, Written(f, off, d[..w + e.len]));
    ContentIgnores(q, m, n, Written(f, off, d[..w + e.len]));
  }

  lemma InvGrown(p: Pool, m: Mem, f: seq<Byte>, end: nat)
    requires Inv(p, m, []) && ContentOk(p, m, f) && m.size < end && (m.bounded ==> end <= m.alloc)
    ensures var n := m.(size := end, dirty := true);
            Inv(p, n, []) && ContentOk(p, n, f) && (Tight(m) ==> Tight(n))
  {
  }

  /** No object but the first lies beyond the allocation `a`. */
  ghost predicate Within(p: Pool, a: nat) {
    forall k :: k > 0 && a <= k * STRIPE ==> !Occupied(At(p, k))
  }

  /** Those that do have nothing queued on them, so that they stay. */
  ghost predicate Settled(p: Pool, a: nat) {
    forall k :: k > 0 && a <= k * STRIPE && Occupied(At(p, k)) ==> At(p, k).pending == []
  }

  lemma WithinGone(p: Pool, a: nat, prune: nat, from: nat)
    requires Steady(p) && Shows(p, from) && from % STRIPE == 0 && a % STRIPE == 0
    requires prune == (if a < STRIPE then STRIPE else a)
    ensures Within(p, a) <==> Gone(p, prune, from / STRIPE)
    ensures Still(p, prune, from / STRIPE) ==> Settled(p, a)
  {
    hide Occupied, Allocs;
    assert from in Allocs(At(p, 0));
    forall k | k > 0 && Occupied(At(p, k)) ensures k < from / STRIPE { assert k * STRIPE < from; }
    assert forall k: nat :: k > 0 ==> (a <= k * STRIPE <==> prune / STRIPE <= k);
  }

  lemma SettledCell(c: Cell, d: Cell)
    requires Moves(c, d) && (Occupied(c) ==> c.pending == [])
    ensures (Occupied(d) <==> Occupied(c)) && (Occupied(d) ==> d.pending == [])
  {
    hide Occupied, Final, Allocs, Doomed, CellClean;
  }

  lemma WithinMoves(p: Pool, q: Pool, a: nat)
    requires Settled(p, a) && forall k :: k > 0 ==> Moves(At(p, k), At(q, k))
    ensures Settled(q, a) && (Within(q, a) <==> Within(p, a))
  {
    hide Occupied, Moves, At;
    forall k | k > 0 && a <= k * STRIPE
      ensures (Occupied(At(q, k)) <==> Occupied(At(p, k))) && (Occupied(At(q, k)) ==> At(q, k).pending == [])
    {
      SettledCell(At(p, k), At(q, k));
    }
  }

  /** Nothing changes about that, whatever lands and whatever is queued on the first object. */
  lemma WithinStays(p: Pool, q: Pool, a: nat)
    requires Settled(p, a) && PoolEvolves(p, q)
    ensures Settled(q, a) && (Within(q, a) <==> Within(p, a))
  {
    hide Evolution, Evolves, Settled, Within, Moves;
    forall k | k > 0 ensures Moves(At(p, k), At(q, k)) { EvolvesAt(p, q, k); }
    WithinMoves(p, q, a);
  }

  lemma WithinFirst(p: Pool, q: Pool, op: Op, a: nat)
    requires Settled(p, a) && PoolEvolves(Enqueue(p, 0, op), q)
    ensures Settled(q, a) && (Within(q, a) <==> Within(p, a))
  {
    hide Evolution, Evolves, Settled, Within, Moves;
    forall k | k > 0 ensures Moves(At(p, k), At(q, k)) { EvolvesAt(Enqueue(p, 0, op), q, k); }
    WithinMoves(p, q, a);
  }

  lemma WithinSafe(p: Pool, m: Mem)
    requires Inv(p, m, []) && Safe(m)
    ensures Settled(p, m.alloc) && Within(p, m.alloc)
  {
    ShowsMemory(p, m, []);
    assert m.alloc in Allocs(At(p, 0));
  }

  lemma SteadyLast(p: Pool)
    requires Within(p, 0)
    ensures Steady(Enqueue(p, 0, Op.Remove))
  {
    hide Occupied, Steadiness;
    assert forall k :: k > 0 ==> !Occupied(At(p, k));
    SteadyAlone(p, Op.Remove);
  }

  lemma LastRemoval(p: Pool, q: Pool)
    requires PoolEvolves(Enqueue(p, 0, Op.Remove), q) && IsDone(q, NextHandle(p, 0))
    ensures var done := At(q, 0).done;
            && |done| == NextHandle(p, 0).n + 1 && Subject(done[|done| - 1]) == Op.Remove
  {
    hide Evolution, Evolves, Doomed, Allocs, Final, Occupied;
    EvolvesAt(Enqueue(p, 0, Op.Remove), q, 0);
    EnqueueHandle(p, 0, Op.Remove, NextHandle(p, 0));
    EvolvesHandle(Enqueue(p, 0, Op.Remove), q, NextHandle(p, 0));
    OpDone(q, NextHandle(p, 0));
  }

  lemma FirstGone(p: Pool, q: Pool)
    requires PoolEvolves(Enqueue(p, 0, Op.Remove), q)
    requires IsDone(q, NextHandle(p, 0)) && !HasFailed(q, NextHandle(p, 0))
    ensures !Occupied(At(q, 0))
  {
    hide Evolution, Evolves, Occupied;
    EvolvesAt(Enqueue(p, 0, Op.Remove), q, 0);
    RemovalDone(q, NextHandle(p, 0), 0);
  }

  /** With the first object removed, what is left is what was left of the others. */
  lemma FirstRemoved(p: Pool, q: Pool)
    requires Settled(p, 0) && PoolEvolves(Enqueue(p, 0, Op.Remove), q)
    requires IsDone(q, NextHandle(p, 0)) && !HasFailed(q, NextHandle(p, 0))
    ensures Within(p, 0) <==> forall k :: !Occupied(At(q, k))
  {
    hide Occupied, Settled, Evolution;
    WithinFirst(p, q, Op.Remove, 0);
    if Within(p, 0) {
      assert forall k :: k > 0 ==> !Occupied(At(p, k));
      AllGone(p, q);
    } else {
      var k :| k > 0 && 0 <= k * STRIPE && Occupied(At(q, k));
    }
  }

  /** Lowering the allocation decides whether an extent dangles. */
  lemma Lowered(p: Pool, mid: Pool, q: Pool, op: Op, prune: nat, n: nat, from: nat)
    requires op.SetXattrs? && op.alloc.Some? && op.alloc.value % STRIPE == 0
    requires prune == (if op.alloc.value < STRIPE then STRIPE else op.alloc.value) && prune + n * STRIPE == from
    requires Steady(p) && Shows(p, from) && Still(p, prune, prune / STRIPE + n) && op in At(mid, 0).pending
    requires PoolEvolves(Enqueue(p, 0, op), mid) && PoolEvolves(mid, q)
    ensures Settled(q, op.alloc.value)
    ensures Within(q, op.alloc.value) <==> Gone(p, prune, prune / STRIPE + n)
    ensures !Gone(p, prune, prune / STRIPE + n) ==> !NoDangling(mid)
  {
    hide Evolves, Evolution, NoDangling, Occupied, Settled, Within, Steadiness, Shows, Gone, Still;
    assert prune % STRIPE == 0 && from % STRIPE == 0 && from / STRIPE == prune / STRIPE + n;
    WithinGone(p, op.alloc.value, prune, from);
    PoolEvolvesTrans(Enqueue(p, 0, op), mid, q);
    WithinFirst(p, q, op, op.alloc.value);
    if !Gone(p, prune, from / STRIPE) { LeftBehind(p, mid, op, prune, from / STRIPE); }
  }

  /** The byte before `end` is neither in the first object nor below the allocation `a`. */
  predicate Past(a: nat, end: nat) {
    end > STRIPE && a <= (end - 1) / STRIPE * STRIPE
  }

  /** A piece that is queued past the allocation that the attributes show dangles. */
  lemma PieceDangles(p: Pool, q: Pool, a: nat, from: nat, e: Extent, op: Op)
    requires Shows(p, a) && op.Write? && PoolEvolves(Enqueue(p, e.stripe, op), q) && op in At(q, e.stripe).pending
    requires e.stripe * STRIPE + e.off == from && 0 < e.len && e.off + e.len <= STRIPE
    ensures Shows(q, a)
    ensures Past(a, from + e.len) ==> !NoDangling(q)
  {
    hide NoDangling, Shows, At, Evolution, Steadiness;
    SteadyWrite(p, a, e.stripe, op);
    ShowsEvolves(Enqueue(p, e.stripe, op), q, a);
    assert (from + e.len - 1) / STRIPE == e.stripe;
    if Past(a, from + e.len) { Dangles(q, a, e.stripe, op); }
  }

  /** A piece below the allocation that the attributes show, or in the first object, does not. */
  lemma PieceSteady(p: Pool, a: nat, from: nat, e: Extent, op: Op, end: nat)
    requires Shows(p, a) && op.Write? && Steady(p)
    requires e.stripe * STRIPE + e.off == from && 0 < e.len && e.off + e.len <= STRIPE
    requires from + e.len <= end && (end <= a || end <= STRIPE)
    ensures Steady(Enqueue(p, e.stripe, op))
  {
    hide Shows, At, Steadiness;
    SteadyWrite(p, a, e.stripe, op);
  }

  /** Where a write ends in relation to the allocation, whether or not it could be grown. */
  lemma WriteEnds(size: nat, prior: nat, end: nat)
    requires AllocOk(prior)
    ensures Fits(size, prior, end) ==> end <= AllocFor(size, prior, end)
    ensures !Fits(size, prior, end) ==> Past(AllocFor(size, prior, end), end)
    ensures prior < end && end > STRIPE ==> Past(prior, end)
  {
  }

  lemma UpdatedAgain(m: Mem, op: Op, h: Handle)
    requires op.SetXattrs?
    ensures Updated(m.(aios := m.aios + [h], version := op.version), op) == Updated(m, op).(aios := m.aios + [h])
  {
  }

  lemma UpdatedIs(m: Mem, op: Op)
    requires op.SetXattrs?
    ensures Updated(m, op) == m.(version := op.version,
                                 alloc := if op.alloc.Some? then op.alloc.value else m.alloc,
                                 size := if op.size.Some? then op.size.value else m.size,
                                 dirty := m.dirty && op.size.None?)
  {
  }

  lemma RenewedAdopted(q: Pool, m: Mem, op: Op, h: Handle)
    requires op.SetXattrs? && op.alloc.Some?
    ensures Renewed(q, m, op, h)
         == Updated(m.(alloc := op.alloc.value, version := op.version, story := m.story.(awaited := m.story.awaited + [h]),
                       landed := m.landed && NoneFailed(q, [h])), op)
    ensures NoneFailed(q, [h]) <==> !HasFailed(q, h)
  {
  }

  lemma ResizedSame(f: seq<Byte>)
    ensures Resized(f, |f|) == f
  {
  }

  // ---- reading ----

  function Length(es: seq<Extent>): nat {
    if es == [] then 0 else es[0].len + Length(es[1..])
  }

  lemma {:induction false} LengthOfExtents(off: nat, len: nat)
    ensures Length(Extents(off, len)) == len
    decreases len
  {
    if len > 0 {
      var e := NextExtent(off, len);
      LengthOfExtents(off + e.len, len - e.len);
      assert Extents(off, len)[1..] == Extents(off + e.len, len - e.len);
    }
  }

  lemma CollectedNone(p: Pool)
    ensures AllStill(p, []) && CollectedBut(p, [], []) == []
  {
  }

  lemma {:induction false} CollectedSnoc(p: Pool, es: seq<Extent>, e: Extent)
    ensures Collected(p, es + [e]) == Collected(p, es) + Piece(Final(At(p, e.stripe)), e)
    decreases |es|
  {
    hide Piece, Final, At;
    if es == [] {
      assert ([] + [e])[1..] == [];
    } else {
      assert (es + [e])[1..] == es[1..] + [e];
      CollectedSnoc(p, es[1..], e);
    }
  }

  lemma {:induction false} NoneLost(p: Pool, es: seq<Extent>, lost: seq<bool>)
    requires |lost| == |es| && true !in lost
    ensures CollectedBut(p, es, lost) == Collected(p, es)
    decreases |es|
  {
    hide Piece, Final, At;
    if es != [] {
      var n := |es| - 1;
      assert es == es[..n] + [es[n]] && lost[n] in lost;
      NoneLost(p, es[..n], lost[..n]);
      CollectedSnoc(p, es[..n], es[n]);
    }
  }

  /** Nothing is queued on the objects of these pieces. */
  predicate AllStill(p: Pool, es: seq<Extent>) {
    forall i :: 0 <= i < |es| ==> At(p, es[i].stripe).pending == []
  }

  lemma {:induction false} CollectedStill(p: Pool, q: Pool, es: seq<Extent>, lost: seq<bool>)
    requires |lost| == |es| && PoolEvolves(p, q) && AllStill(p, es)
    ensures AllStill(q, es) && CollectedBut(q, es, lost) == CollectedBut(p, es, lost)
    decreases |es|
  {
    hide Evolution, Evolves, Piece;
    if es != [] {
      var n := |es| - 1;
      RestStays(p, q, es[n].stripe);
      CollectedStill(p, q, es[..n], lost[..n]);
    }
  }

  /** The next piece of a read continues it. */
  lemma {:induction false} PieceRead(p: Pool, q: Pool, es: seq<Extent>, e: Extent, data: seq<Byte>, bytes: seq<Byte>,
                                     lost: seq<bool>, failed: bool)
    requires PoolEvolves(p, q) && |lost| == |es| && AllStill(p, es)
    requires data == CollectedBut(p, es, lost)
    requires At(q, e.stripe).pending == []
    requires bytes == if failed then [] else Piece(At(q, e.stripe).obj, e)
    ensures AllStill(q, es + [e]) && data + bytes == CollectedBut(q, es + [e], lost + [failed])
  {
    hide Evolution, Evolves, Slice, Piece;
    CollectedStill(p, q, es, lost);
    assert (es + [e])[..|es|] == es && (lost + [failed])[..|es|] == lost;
    assert Final(At(q, e.stripe)) == At(q, e.stripe).obj;
  }

  /** A byte of the range that is there, or will be. */
  predicate Present(p: Pool, i: nat) {
    var o := Final(At(p, i / STRIPE));
    o.Some? && i % STRIPE < |o.value.data|
  }

  predicate AllPresent(p: Pool, off: nat, len: nat) {
    forall i :: off <= i < off + len ==> Present(p, i)
  }

  lemma ExtentBytes(e: Extent, off: nat, i: nat)
    requires e.stripe * STRIPE + e.off == off && e.off + e.len <= STRIPE && off <= i < off + e.len
    ensures i / STRIPE == e.stripe && i % STRIPE == e.off + (i - off)
  {
  }

  /** One piece is complete exactly if all of its bytes are there. */
  lemma PieceFull(p: Pool, e: Extent, off: nat)
    requires e.stripe * STRIPE + e.off == off && 0 < e.len && e.off + e.len <= STRIPE
    ensures |Piece(Final(At(p, e.stripe)), e)| <= e.len
    ensures |Piece(Final(At(p, e.stripe)), e)| == e.len <==> AllPresent(p, off, e.len)
  {
    hide Final;
    var o := Final(At(p, e.stripe));
    forall i | off <= i < off + e.len ensures Present(p, i) <==> o.Some? && e.off + (i - off) < |o.value.data| {
      ExtentBytes(e, off, i);
    }
    var last := off + e.len - 1;
    if AllPresent(p, off, e.len) { assert Present(p, last); }
  }

  /** A read is as long as was asked for exactly if every byte of the range is there.  Holes are not
      read as zeros: what lies behind them moves up. */
  lemma {:induction false} ReadFullExactly(p: Pool, off: nat, len: nat)
    ensures |Collected(p, Extents(off, len))| <= len
    ensures |Collected(p, Extents(off, len))| == len <==> AllPresent(p, off, len)
    decreases len
  {
    hide Piece, Present;
    if len > 0 {
      var e := NextExtent(off, len);
      PieceFull(p, e, off);
      ReadFullExactly(p, off + e.len, len - e.len);
      assert Extents(off, len)[1..] == Extents(off + e.len, len - e.len);
      assert AllPresent(p, off, len) <==> AllPresent(p, off, e.len) && AllPresent(p, off + e.len, len - e.len);
    }
  }

  lemma CollectedStep(p: Pool, off: nat, len: nat)
    requires len > 0
    ensures var e := NextExtent(off, len);
            Collected(p, Extents(off, len)) == Piece(Final(At(p, e.stripe)), e) + Collected(p, Extents(off + e.len, len - e.len))
  {
    hide Piece, Final, At;
    var e := NextExtent(off, len);
    assert Extents(off, len)[1..] == Extents(off + e.len, len - e.len);
  }

  /** Inside a file that the objects hold, a read yields just that part of the file. */
  lemma {:induction false} CollectedInside(p: Pool, f: seq<Byte>, off: nat, len: nat)
    requires Holds(p, f) && off + len <= |f|
    ensures Collected(p, Extents(off, len)) == f[off..off + len]
    decreases len
  {
    hide Holds, Piece, Final, At;
    if len > 0 {
      hide Collected, Extents;
      var e := NextExtent(off, len);
      SliceRead(p, f, off, e);
      CollectedInside(p, f, off + e.len, len - e.len);
      CollectedStep(p, off, len);
      assert f[off..off + e.len] + f[off + e.len..off + len] == f[off..off + len];
    }
  }

  lemma InsideRead(p: Pool, m: Mem, f: seq<Byte>, off: nat, len: nat)
    requires ContentOk(p, m, f) && off + len <= |f|
    ensures Clean(p) && m.dense && !m.told ==> Collected(p, Extents(off, len)) == f[off..off + len]
  {
    hide Extents, Collected;
    if Clean(p) && m.dense && !m.told { CollectedInside(p, f, off, len); }
  }

  lemma SliceRead(p: Pool, f: seq<Byte>, from: nat, e: Extent)
    requires Holds(p, f) && e.stripe * STRIPE + e.off == from && 0 < e.len && e.off + e.len <= STRIPE
    requires from + e.len <= |f|
    ensures Piece(Final(At(p, e.stripe)), e) == f[from..from + e.len]
  {
    ByteRead(p, f, from, e, e.len - 1);
    var d := Final(At(p, e.stripe)).value.data;
    var g, s := f[from..from + e.len], d[e.off..e.off + e.len];
    forall j | 0 <= j < |g| ensures s[j] == g[j] {
      ByteRead(p, f, from, e, j);
    }
    assert s == g;
  }

  lemma ByteRead(p: Pool, f: seq<Byte>, from: nat, e: Extent, j: nat)
    requires Holds(p, f) && e.stripe * STRIPE + e.off == from && j < e.len && e.off + e.len <= STRIPE
    requires from + e.len <= |f|
    ensures HasByte(Final(At(p, e.stripe)), e.off + j, f[from + j])
  {
    ExtentBytes(e, from, from + j);
    assert HasByte(Final(At(p, (from + j) / STRIPE)), (from + j) % STRIPE, f[from + j]);
  }

  /** One byte written a whole object past the end of an empty file: the file is one byte longer than
      an object, but reading all of it yields just that byte. */
  lemma SparseWriteMovesUp(b: Byte) returns (p: Pool)
    ensures p == Enqueue(map[0 := CREATED], 1, Write(0, [b]))
    ensures Collected(p, Extents(0, STRIPE + 1)) == [b] != Written([], STRIPE, [b])
  {
    p := Enqueue(map[0 := CREATED], 1, Write(0, [b]));
    FinalQueued(Cell(None, [], []), Write(0, [b]));
    var e0, e1 := Extent(0, 0, STRIPE), Extent(1, 0, 1);
    assert Extents(STRIPE, 1) == [e1] + Extents(STRIPE + 1, 0);
    assert Extents(0, STRIPE + 1) == [e0] + Extents(STRIPE, 1);
    assert Extents(0, STRIPE + 1) == [e0, e1];
    assert Piece(Final(At(p, 0)), e0) == [];
    assert Piece(Final(At(p, 1)), e1) == [b];
    assert Collected(p, [e1]) == [b] + Collected(p, [e1][1..]);
    assert [e0, e1][1..] == [e1];
  }
}
