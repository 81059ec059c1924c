/** Whole runs: one client after the other opens the file, makes any calls it likes, and leaves. */
module StriperSession {
  import opened Wrappers
  import opened Rados
  import opened Striping
  import opened RadosClient
  import opened StriperState
  import opened SimpleRadosStriper

  datatype Call =
    | WriteAt(off: nat, data: seq<Byte>)
    | TruncateTo(n: nat)
    | ReadAt(off: nat, len: nat)
    | Sync

  /** What a client can tell from the calls alone: the flat file, its allocation, and whether the size in
      the attributes is out of date. */
  datatype Plan = Plan(file: seq<Byte>, alloc: nat, dirty: bool)

  function PlanStep(p: Plan, c: Call): Plan {
    var size := |p.file|;
    match c
    case WriteAt(off, data) =>
      Plan(Written(p.file, off, data), AllocFor(size, p.alloc, off + |data|), p.dirty || size < off + |data|)
    case TruncateTo(n) => Plan(Resized(p.file, n), ShrunkAlloc(n, AllocFor(size, p.alloc, n)), false)
    case ReadAt(_, _) => p
    case Sync => Plan(p.file, if p.dirty then ShrunkAlloc(size, AllocFor(size, p.alloc, size)) else p.alloc, false)
  }

  function PlanRun(p: Plan, calls: seq<Call>): Plan
    decreases |calls|
  {
    if calls == [] then p else PlanRun(PlanStep(p, calls[0]), calls[1..])
  }

  /** Writes start inside the file and fit the growth of the allocation; nothing is truncated to more than
      it has. */
  predicate Regular(p: Plan, calls: seq<Call>)
    decreases |calls|
  {
    calls == [] || (RegularStep(p, calls[0]) && Regular(PlanStep(p, calls[0]), calls[1..]))
  }

  predicate RegularStep(p: Plan, c: Call) {
    match c
    case WriteAt(off, data) => off <= |p.file| && Fits(|p.file|, p.alloc, off + |data|)
    case TruncateTo(n) => n <= |p.file|
    case ReadAt(_, _) => true
    case Sync => true
  }

  /** Whatever the allocation, a write fits that reaches no further than MIN_GROWTH past the end. */
  predicate Near(f: seq<Byte>, calls: seq<Call>)
    decreases |calls|
  {
    calls == [] ||
    match calls[0]
    case WriteAt(off, data) => off <= |f| && off + |data| <= |f| + MIN_GROWTH && Near(Written(f, off, data), calls[1..])
    case TruncateTo(n) => n <= |f| && Near(Resized(f, n), calls[1..])
    case ReadAt(_, _) => Near(f, calls[1..])
    case Sync => Near(f, calls[1..])
  }

  lemma {:induction false} NearIsRegular(p: Plan, calls: seq<Call>)
    requires Near(p.file, calls)
    ensures Regular(p, calls)
    decreases |calls|
  {
    if calls != [] {
      GrowthCoversExactly(|p.file|, p.alloc, if calls[0].WriteAt? then calls[0].off + |calls[0].data| else 0);
      NearIsRegular(PlanStep(p, calls[0]), calls[1..]);
    }
  }

  /** What the reads of a run yield, one after the other, as far as they stay inside the file. */
  function Answers(p: Plan, calls: seq<Call>): seq<Option<seq<Byte>>>
    decreases |calls|
  {
    if calls == [] then [] else Answer(p, calls[0]) + Answers(PlanStep(p, calls[0]), calls[1..])
  }

  function Answer(p: Plan, c: Call): seq<Option<seq<Byte>>> {
    if !c.ReadAt? then []
    else if c.off + c.len <= |p.file| then [Some(p.file[c.off..c.off + c.len])]
    else [None]
  }

  predicate Agree(got: seq<seq<Byte>>, want: seq<Option<seq<Byte>>>) {
    |got| == |want| && forall i :: 0 <= i < |got| && want[i].Some? ==> got[i] == want[i].value
  }

  lemma AgreeMore(got: seq<seq<Byte>>, want: seq<Option<seq<Byte>>>, g: seq<seq<Byte>>, w: seq<Option<seq<Byte>>>)
    requires Agree(got, want) && Agree(g, w)
    ensures Agree(got + g, want + w)
  {
  }

  /** Where a client stands in its plan, as long as no call returned an error. */
  ghost predicate Follows(s: Striper, p: Plan)
    reads s, s.ioctx
  {
    && s.Valid() && !s.blocklisted && s.bounded && s.dense && !s.told
    && p == Plan(s.flat, s.alloc, s.sizeDirty)
  }

  /** What is sure even after an error. */
  ghost predicate Alive(s: Striper)
    reads s, s.ioctx
  {
    s.Valid() && s.bounded
  }

  /** No operation failed, and no read did from one moment to the other. */
  ghost predicate Flawless(a: Moment, b: Moment) {
    Clean(b.pool) && b.misreads == a.misreads
  }

  lemma FlawlessParts(a: Moment, b: Moment, c: Moment)
    requires Onward(a, b) && Onward(b, c)
    ensures Onward(a, c)
    ensures Flawless(a, c) ==> Flawless(a, b) && Flawless(b, c)
  {
    GrowsClean(b.pool, c.pool);
  }

  /** There is a reason for a call to return an error: a request was refused, or an operation has failed. */
  ghost predicate Excused(a: Moment, b: Moment) {
    b.refusals > a.refusals || !Clean(b.pool)
  }

  lemma ExcusedLater(a: Moment, b: Moment, c: Moment)
    requires Onward(a, b) && Excused(b, c)
    ensures Excused(a, c)
  {
  }

  method MakeCall(s: Striper, c: Call, ghost p: Plan) returns (ok: bool, answer: seq<seq<Byte>>)
    requires Follows(s, p) && RegularStep(p, c)
    modifies s, s.ioctx
    ensures Alive(s) && s.ioctx.Since(old(s.ioctx.Now()))
    ensures ok ==> Follows(s, PlanStep(p, c)) && |answer| == |Answer(p, c)|
    ensures if ok then Flawless(old(s.ioctx.Now()), s.ioctx.Now()) ==> Agree(answer, Answer(p, c)) else answer == []
    ensures if ok then s.ioctx.refusals == old(s.ioctx.refusals) else Excused(old(s.ioctx.Now()), s.ioctx.Now())
  {
    hide Standing, Content, RoundUp, ShrunkAlloc, Written, Resized, AtRest, Stores, FirstFailure, Clean, NoDangling, AllocFor, Fits,
         Steadiness, Within, Quiet, Onward, NoneFailed, AllDone, LastUpdateFailed, StoresVersion, Remembers, SpaceClean,
         Sent, Looked;
    answer := [];
    match c {
      case WriteAt(off, data) =>
        var rc := s.Write(data, off);
        ok := rc == |data|;
      case TruncateTo(n) =>
        GrowthCoversExactly(s.size, s.alloc, n);
        var rc := s.Truncate(n);
        ok := rc == 0;
      case ReadAt(off, len) =>
        ok, answer := MakeRead(s, off, len, p);
      case Sync =>
        ok := MakeFlush(s, p);
    }
  }

  method MakeFlush(s: Striper, ghost p: Plan) returns (ok: bool)
    requires Follows(s, p)
    modifies s, s.ioctx
    ensures Alive(s) && s.ioctx.Since(old(s.ioctx.Now()))
    ensures ok ==> Follows(s, PlanStep(p, Sync)) && Quiet(s.ioctx.pool)
    ensures ok && Clean(s.ioctx.pool) ==>
              AtRest(s.ioctx.pool, s.size, s.alloc, s.version) && Stores(s.ioctx.pool, s.flat)
    ensures if ok then s.ioctx.refusals == old(s.ioctx.refusals) else Excused(old(s.ioctx.Now()), s.ioctx.Now())
  {
    hide Standing, Content, RoundUp, ShrunkAlloc, AtRest, Stores, FirstFailure, Clean, NoDangling, AllocFor,
         Steadiness, Within, Quiet, Onward, NoneFailed, AllDone, LastUpdateFailed, StoresVersion, Remembers;
    FailureUnclean(s.ioctx.pool, s.View());
    var rc := s.Flush();
    CleanBefore(old(s.ioctx.Now()), s.ioctx.Now());
    ok := rc == 0;
  }

  lemma CleanBefore(a: Moment, b: Moment)
    requires Onward(a, b)
    ensures Clean(b.pool) ==> Clean(a.pool)
  {
    GrowsClean(a.pool, b.pool);
  }

  method MakeRead(s: Striper, off: nat, len: nat, ghost p: Plan) returns (ok: bool, answer: seq<seq<Byte>>)
    requires Follows(s, p)
    modifies s.ioctx
    ensures Follows(s, p) && s.ioctx.Since(old(s.ioctx.Now()))
    ensures ok ==> |answer| == 1
    ensures if ok then Flawless(old(s.ioctx.Now()), s.ioctx.Now()) ==> Agree(answer, Answer(p, ReadAt(off, len))) else answer == []
    ensures s.ioctx.refusals == old(s.ioctx.refusals) + One(!ok)
  {
    hide Standing, Content, RoundUp, Clean, NoDangling, Steadiness, Grows, Extents, CollectedBut, AllStill;
    var rc, data;
    ghost var lost;
    rc, data, lost := s.Read(len, off);
    ok := rc >= 0;
    answer := if ok then [data] else [];
  }

  /** If no removal and no update of the allocation failed, no extent ever dangled. */
  lemma AliveSafe(s: Striper)
    requires Alive(s)
    ensures SpaceClean(s.ioctx.pool) ==> s.ioctx.CrashSafe()
  {
    hide SpaceClean, Standing;
    LandedExact(s.ioctx.pool, s.View());
  }

  lemma AgreePart(got: seq<seq<Byte>>, want: seq<Option<seq<Byte>>>, rest: seq<Option<seq<Byte>>>)
    requires Agree(got, want)
    ensures Agree(got, (want + rest)[..|got|])
  {
    assert (want + rest)[..|got|] == want;
  }

  /** Makes one call after the other, until one returns an error. */
  method MakeCalls(s: Striper, calls: seq<Call>, ghost p: Plan) returns (ok: bool, answers: seq<seq<Byte>>)
    requires Follows(s, p) && Regular(p, calls)
    modifies s, s.ioctx
    ensures Alive(s) && s.ioctx.Since(old(s.ioctx.Now()))
    ensures ok ==> Follows(s, PlanRun(p, calls))
    ensures var want := Answers(p, calls);
            && |answers| <= |want| && (ok ==> |answers| == |want|)
            && (Flawless(old(s.ioctx.Now()), s.ioctx.Now()) ==> Agree(answers, want[..|answers|]))
    ensures if ok then s.ioctx.refusals == old(s.ioctx.refusals) else Excused(old(s.ioctx.Now()), s.ioctx.Now())
    decreases |calls|
  {
    hide Standing, RegularStep, PlanStep, Answer, Onward, Agree, Alive, Flawless, Excused;
    ok, answers := true, [];
    if calls == [] {
      FollowsAlive(s, p);
      OnwardNow(s.ioctx.Now());
      AgreePart([], [], []);
      return;
    }
    ok, answers := MakeCall(s, calls[0], p);
    ghost var moment, want, rest := s.ioctx.Now(), Answer(p, calls[0]), Answers(PlanStep(p, calls[0]), calls[1..]);
    if !ok {
      AgreePart([], [], want + rest);
      return;
    }
    var more;
    ok, more := MakeCalls(s, calls[1..], PlanStep(p, calls[0]));
    FlawlessParts(old(s.ioctx.Now()), moment, s.ioctx.Now());
    if !ok { ExcusedLater(old(s.ioctx.Now()), moment, s.ioctx.Now()); }
    assert want + rest[..|more|] == (want + rest)[..|answers + more|];
    if Flawless(old(s.ioctx.Now()), s.ioctx.Now()) { AgreeMore(answers, want, more, rest[..|more|]); }
    answers := answers + more;
  }

  /** A client opens the file, makes its calls and flushes, giving up at the first error.  However it
      ends, no crash point had a dangling extent if no removal and no update of the allocation failed; and
      every read inside the file has returned just that part of it, if no operation and no read failed.  It
      reports success if no request was refused and no operation failed, and never if one was refused.  If it
      does and no operation failed, exactly the file that the calls describe is stored, with the allocation
      that they describe, ready for the next client. */
  method Session(io: Ioctx, ghost f: seq<Byte>, calls: seq<Call>) returns (ok: bool, answers: seq<seq<Byte>>)
    requires Handover(io.pool, f) && io.CrashSafe() && Regular(Plan(f, StoredAlloc(io.pool), false), calls)
    modifies io
    ensures SpaceClean(io.pool) ==> io.CrashSafe()
    ensures var want := Answers(old(Plan(f, StoredAlloc(io.pool), false)), calls);
            && |answers| <= |want| && (ok ==> |answers| == |want|)
            && (Flawless(old(io.Now()), io.Now()) ==> Agree(answers, want[..|answers|]))
    ensures if ok then io.refusals == old(io.refusals) else Excused(old(io.Now()), io.Now())
    ensures ok ==> Quiet(io.pool)
    ensures ok && Clean(io.pool) ==> var end := PlanRun(old(Plan(f, StoredAlloc(io.pool), false)), calls + [Sync]);
                                     Handover(io.pool, end.file) && StoredAlloc(io.pool) == end.alloc
  {
    hide Standing, Content, RoundUp, Handover, AtRest, Stores, FirstFailure, PlanStep, RegularStep, NoDangling, Flawless,
         Steadiness, StoredAlloc, Clean, Quiet, NoneFailed, SpaceClean, Answers, Onward, Agree, PlanRun, Regular;
    ghost var start := Plan(f, StoredAlloc(io.pool), false);
    var s := new Striper(io);
    var rc := s.Open(f);
    ghost var begun := io.Now();
    if rc < 0 {
      AgreePart([], [], Answers(start, calls));
      return false, [];
    }
    ok, answers := MakeCalls(s, calls, start);
    ghost var made := io.Now();
    FlawlessParts(old(io.Now()), begun, made);
    if !ok { ExcusedLater(old(io.Now()), begun, made); }
    if ok {
      PlanRunConcat(start, calls, [Sync]);
      ok := Leave(s, PlanRun(start, calls));
      FlawlessParts(old(io.Now()), made, io.Now());
      if !ok { ExcusedLater(old(io.Now()), made, io.Now()); }
    }
    AliveSafe(s);
  }

  lemma FollowsAlive(s: Striper, p: Plan)
    requires Follows(s, p)
    ensures Alive(s)
  {
  }

  /** The last flush. */
  method Leave(s: Striper, ghost p: Plan) returns (ok: bool)
    requires Follows(s, p)
    modifies s, s.ioctx
    ensures Alive(s) && s.ioctx.Since(old(s.ioctx.Now()))
    ensures ok ==> Quiet(s.ioctx.pool)
    ensures ok && Clean(s.ioctx.pool) ==> var end := PlanRun(p, [Sync]);
                                          Handover(s.ioctx.pool, end.file) && StoredAlloc(s.ioctx.pool) == end.alloc
    ensures if ok then s.ioctx.refusals == old(s.ioctx.refusals) else Excused(old(s.ioctx.Now()), s.ioctx.Now())
  {
    hide Standing, Content, RoundUp, ShrunkAlloc, AtRest, Stores, FirstFailure, Handover, StoredAlloc, Clean, Quiet, NoDangling,
         Steadiness, Onward, Excused;
    ok := MakeFlush(s, p);
    assert [Sync][1..] == [];
    if ok && Clean(s.ioctx.pool) { FlushedIsHandover(s.ioctx.pool, s.View(), s.flat); }
  }

  // ---- what a flush reports ----

  /** A flush that reaches its wait: `m` is the memory at some time after the report before it.  What it
      reports is the first failure among all that was found to have ended since then, by whatever call, and
      all the rest of the queue was waited for. */
  ghost predicate Closes(p: Pool, m: Mem, n: Mem, rc: int) {
    && m.story.reported <= n.story.reported && m.story.drained <= n.story.drained
    && var looked, waited := n.story.reported[|m.story.reported|..], n.story.drained[|m.story.drained|..];
       && rc == FirstFailure(p, looked) && (m.failure != 0 ==> rc == m.failure)
       && m.popped <= looked && m.popped + m.aios <= looked + waited
       && n.aios == [] && n.popped == [] && n.failure == 0
  }

  /** An operation on the queue has ended with a failure, and so has, one way or the other, all that is ahead of
      it. */
  predicate Failing(p: Pool, aios: seq<Handle>) {
    exists n :: 0 <= n < |aios| && CodeOf(p, aios[n]) != 0 && forall j :: 0 <= j <= n ==> IsDone(p, aios[j])
  }

  /** A call that looks at what has ended cannot miss it. */
  lemma FailingFound(a: Moment, m: Mem, b: Moment, n: Mem)
    requires Onward(a, b) && Remembers(m, n) && Failing(a.pool, m.aios) && Looked(b.pool, n.aios)
    requires n.failure == FirstFailure(b.pool, n.popped)
    ensures n.failure != 0
  {
    hide Onward, FirstFailure, CodeOf, IsDone;
    var k :| 0 <= k < |m.aios| && CodeOf(a.pool, m.aios[k]) != 0 && forall j :: 0 <= j <= k ==> IsDone(a.pool, m.aios[j]);
    var was, now, at := m.popped + m.aios, n.popped + n.aios, |m.popped| + k;
    assert was[at] == m.aios[k] == now[at];
    if |n.popped| <= at {
      var j := |n.popped| - |m.popped|;
      assert n.aios[0] == now[|n.popped|] == was[|n.popped|] == m.aios[j];
      HandleKept(a, b, m.aios[j]);
    } else {
      assert now[at] == n.popped[at] && m.aios[k] in n.popped;
      HandleKept(a, b, m.aios[k]);
      FirstFailureIsFirst(b.pool, n.popped);
    }
  }

  /** Any call but flush(), with whatever result. */
  method AnyCall(s: Striper, c: Call) returns (rc: int)
    requires s.Valid() && !c.Sync?
    modifies s, s.ioctx
    ensures s.Valid() && s.blocklisted == old(s.blocklisted) && s.ioctx.Since(old(s.ioctx.Now()))
    ensures Remembers(old(s.View()), s.View())
    ensures c.WriteAt? && rc >= 0 ==> !s.blocklisted && Looked(s.ioctx.pool, s.aios)
  {
    hide Standing, Content, RoundUp, ShrunkAlloc, Written, Resized, FirstFailure, Clean, NoDangling, AllocFor, Fits,
         Steadiness, Within, Onward, Remembers, SpaceClean, Extents, CollectedBut, Tight, Sent, Looked, AllStill;
    match c {
      case WriteAt(off, data) => rc := s.Write(data, off);
      case TruncateTo(n) => rc := s.Truncate(n);
      case ReadAt(off, len) =>
        RemembersSame(s.View(), s.View());
        var data;
        ghost var lost;
        rc, data, lost := s.Read(len, off);
    }
  }

  /** From any valid state, any calls, whatever becomes of them, and then a flush.  It reports the first
      failure that was found, or is refused the update of the size and forgets nothing; and a write finds every
      failure that is there for it to find.  When it returns 0 and no call ever returned an error, an operation
      has failed exactly if one did that was waited for. */
  method Window(s: Striper, calls: seq<Call>) returns (rc: int, codes: seq<int>)
    requires s.Valid() && Sync !in calls
    modifies s, s.ioctx
    ensures s.Valid() && s.blocklisted == old(s.blocklisted) && |codes| == |calls|
    ensures !s.blocklisted ==> Closes(s.ioctx.pool, old(s.View()), s.View(), rc)
                               || (rc < 0 && s.told && Remembers(old(s.View()), s.View()))
    ensures s.blocklisted ==> rc == EBLOCKLISTED && Remembers(old(s.View()), s.View())
    ensures old(Failing(s.ioctx.pool, s.aios)) && Wrote(calls, codes) ==> rc < 0
    ensures rc == 0 && !s.told ==>
              (Clean(s.ioctx.pool) <==> NoneFailed(s.ioctx.pool, s.story.drained + s.story.awaited))
  {
    hide Standing, Content, RoundUp, ShrunkAlloc, AtRest, Stores, FirstFailure, Clean, Quiet, NoDangling, AllocFor,
         Steadiness, Within, Onward, NoneFailed, AllDone, LastUpdateFailed, StoresVersion, Remembers, Tight, Closes, Failing, Looked;
    RemembersSame(s.View(), s.View());
    OnwardNow(s.ioctx.Now());
    codes := [];
    for i := 0 to |calls|
      invariant s.Valid() && s.blocklisted == old(s.blocklisted) && Remembers(old(s.View()), s.View()) && |codes| == i
      invariant s.ioctx.Since(old(s.ioctx.Now()))
      invariant Wrote(calls[..i], codes) && old(Failing(s.ioctx.pool, s.aios)) ==> s.aiosFailure != 0 && !s.blocklisted
    {
      assert calls[i] in calls && calls[..i + 1] == calls[..i] + [calls[i]];
      ghost var m, moment := s.View(), s.ioctx.Now();
      rc := AnyCall(s, calls[i]);
      RemembersTrans(old(s.View()), m, s.View());
      OnwardTrans(old(s.ioctx.Now()), moment, s.ioctx.Now());
      WroteMore(calls[..i], codes, calls[i], rc);
      RemembersFailure(m, s.View());
      if old(Failing(s.ioctx.pool, s.aios)) && calls[i].WriteAt? && rc >= 0 {
        InvUse(s.ioctx.pool, s.View(), []);
        FailingFound(old(s.ioctx.Now()), old(s.View()), s.ioctx.Now(), s.View());
      }
      codes := codes + [rc];
    }
    assert calls[..|calls|] == calls;
    ghost var m := s.View();
    rc := s.Flush();
    if !s.blocklisted {
      if s.Kept(m, rc) {
        RemembersTrans(old(s.View()), m, s.View());
      } else {
        WindowCloses(s, old(s.View()), m, rc);
      }
    }
  }

  /** One of the calls was a write that was not refused as a whole. */
  predicate Wrote(calls: seq<Call>, codes: seq<int>)
    requires |codes| == |calls|
  {
    exists i :: 0 <= i < |calls| && calls[i].WriteAt? && codes[i] >= 0
  }

  lemma WroteMore(calls: seq<Call>, codes: seq<int>, c: Call, rc: int)
    requires |codes| == |calls|
    ensures Wrote(calls + [c], codes + [rc]) <==> Wrote(calls, codes) || (c.WriteAt? && rc >= 0)
  {
    var more, all := calls + [c], codes + [rc];
    assert more[|calls|] == c && all[|calls|] == rc;
    assert forall i :: 0 <= i < |calls| ==> more[i] == calls[i] && all[i] == codes[i];
  }

  lemma RemembersFailure(m: Mem, n: Mem)
    requires Remembers(m, n)
    ensures m.failure != 0 ==> n.failure != 0
  {
  }

  lemma WindowCloses(s: Striper, start: Mem, m: Mem, rc: int)
    requires Remembers(start, m) && s.HasReported(m, rc)
    ensures Closes(s.ioctx.pool, start, s.View(), rc)
  {
    hide FirstFailure;
    var n := s.View();
    assert m.story.reported == start.story.reported && m.story.drained == start.story.drained;
    assert n.story.reported[|start.story.reported|..] == m.popped;
    assert m.aios <= n.story.drained[|start.story.drained|..];
    assert m.popped + m.aios <= m.popped + n.story.drained[|start.story.drained|..];
  }

  // ---- one client after the other ----

  /** The calls of all clients, each of which flushes before it leaves. */
  function Joined(turns: seq<seq<Call>>): seq<Call> {
    if turns == [] then [] else turns[0] + [Sync] + Joined(turns[1..])
  }

  lemma {:induction false} PlanRunConcat(p: Plan, a: seq<Call>, b: seq<Call>)
    ensures PlanRun(p, a + b) == PlanRun(PlanRun(p, a), b)
    ensures Regular(p, a + b) <==> Regular(p, a) && Regular(PlanRun(p, a), b)
    decreases |a|
  {
    hide PlanStep, RegularStep;
    if a == [] {
      assert a + b == b;
    } else {
      assert (a + b)[1..] == a[1..] + b;
      PlanRunConcat(PlanStep(p, a[0]), a[1..], b);
    }
  }

  /** What a turn leaves is where the next one starts. */
  lemma TurnEnds(p: Plan, calls: seq<Call>)
    ensures !PlanRun(p, calls + [Sync]).dirty
    ensures Regular(p, calls + [Sync]) <==> Regular(p, calls)
  {
    PlanRunConcat(p, calls, [Sync]);
    var q := PlanRun(p, calls);
    assert PlanRun(q, [Sync]) == PlanRun(PlanStep(q, Sync), [Sync][1..]);
  }

  /** Nothing failed so far, as an observer of the whole pool could tell. */
  predicate AllClean(p: Pool) {
    forall k :: k in p ==> CellClean(p[k])
  }

  lemma AllCleanIs(p: Pool)
    ensures AllClean(p) <==> Clean(p)
  {
    if AllClean(p) {
      forall k ensures CellClean(At(p, k)) { }
    } else {
      var k :| k in p && !CellClean(p[k]);
      assert At(p, k) == p[k];
    }
  }

  /** Any number of clients take turns at the file.  As long as no call returns an error and no operation
      fails, each finds exactly what the one before it left: in the end the file, and its allocation, are
      what all their calls make of it, one turn after the other. */
  method Relay(io: Ioctx, ghost f: seq<Byte>, turns: seq<seq<Call>>) returns (done: nat)
    requires Handover(io.pool, f) && io.CrashSafe() && Regular(Plan(f, StoredAlloc(io.pool), false), Joined(turns))
    modifies io
    ensures done <= |turns|
    ensures SpaceClean(io.pool) ==> io.CrashSafe()
    ensures io.refusals == old(io.refusals) && Clean(io.pool) ==> done == |turns|
    ensures done == |turns| ==> var end := PlanRun(old(Plan(f, StoredAlloc(io.pool), false)), Joined(turns));
                                Handover(io.pool, end.file) && StoredAlloc(io.pool) == end.alloc
  {
    hide Handover, StoredAlloc, PlanRun, Regular, Clean, Quiet, SpaceClean, Answers, Agree, Flawless;
    ghost var start := Plan(f, StoredAlloc(io.pool), false);
    ghost var p := start;
    done := 0;
    while done < |turns|
      invariant done <= |turns| && io.CrashSafe() && io.refusals == old(io.refusals)
      invariant Handover(io.pool, p.file) && p == Plan(p.file, StoredAlloc(io.pool), false)
      invariant Regular(p, Joined(turns[done..])) && PlanRun(p, Joined(turns[done..])) == PlanRun(start, Joined(turns))
    {
      ghost var calls, rest := turns[done], Joined(turns[done + 1..]);
      assert turns[done..][1..] == turns[done + 1..] && Joined(turns[done..]) == calls + [Sync] + rest;
      PlanRunConcat(p, calls + [Sync], rest);
      TurnEnds(p, calls);
      var ok, _ := Session(io, p.file, turns[done]);
      AllCleanIs(io.pool);
      if !ok || !AllClean(io.pool) { return; }
      CleanSpace(io.pool);
      p := PlanRun(p, calls + [Sync]);
      done := done + 1;
    }
    assert turns[done..] == [];
    JoinedNone(p);
  }

  lemma CleanSpace(p: Pool)
    requires Clean(p)
    ensures SpaceClean(p)
  {
    forall k, o | o in At(p, k).done ensures !o.Failed? { assert CellClean(At(p, k)); }
  }

  lemma JoinedNone(p: Plan)
    ensures PlanRun(p, Joined([])) == p
  {
  }
}
