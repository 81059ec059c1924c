/** Waiting for a mapped block device to appear: the matching of udev events, and the loop that waits
    for them and for the kernel's answer at the same time. */
module KrbdMap {
  import opened Wrappers

  const DEVNODE_PREFIX: string := "/dev/rbd"

  datatype Spec = Spec(pool: string, nspace: string, image: string, snap: string)

  datatype Action = Add | OtherAction

  datatype Subsystem = Rbd | Block | OtherSubsystem

  /** A udev event. `spec` is what the attributes of an rbd device say, if they are all there; `devnode`
      belongs to a block device; `major` and `minor` are properties of a block device and attributes of an
      rbd device. */
  datatype Device = Device(action: Action, subsystem: Subsystem, spec: Option<Spec>, sysname: string,
                           devnode: string, major: string, minor: string)

  function Devnode(d: Device): string {
    DEVNODE_PREFIX + d.sysname
  }

  // ---- what is waited for ----

  predicate IsBus(spec: Spec, d: Device) {
    d.action.Add? && d.subsystem.Rbd? && d.spec == Some(spec)
  }

  predicate IsBlock(node: string, d: Device) {
    d.action.Add? && d.subsystem.Block? && d.devnode == node
  }

  /** The position of the first event that adds the image, or the number of events. */
  function BusAt(spec: Spec, es: seq<Device>): (n: nat)
    ensures n <= |es| && (n < |es| ==> IsBus(spec, es[n])) && forall i :: 0 <= i < n ==> !IsBus(spec, es[i])
    decreases |es|
  {
    if es == [] then 0 else if IsBus(spec, es[0]) then 0 else 1 + BusAt(spec, es[1..])
  }

  /** The position of the first event that adds a device node, or the number of events. */
  function BlockAt(node: string, es: seq<Device>): (n: nat)
    ensures n <= |es| && (n < |es| ==> IsBlock(node, es[n])) && forall i :: 0 <= i < n ==> !IsBlock(node, es[i])
    decreases |es|
  {
    if es == [] then 0 else if IsBlock(node, es[0]) then 0 else 1 + BlockAt(node, es[1..])
  }

  /** Both the image and the block device that belongs to it have been added, in either order. */
  predicate Matched(spec: Spec, es: seq<Device>) {
    var n := BusAt(spec, es);
    n < |es| && BlockAt(Devnode(es[n]), es) < |es|
  }

  lemma BusAtUnique(spec: Spec, es: seq<Device>, n: nat)
    requires n <= |es| && (n < |es| ==> IsBus(spec, es[n])) && forall i :: 0 <= i < n ==> !IsBus(spec, es[i])
    ensures BusAt(spec, es) == n
  {
  }

  lemma BlockAtUnique(node: string, es: seq<Device>, n: nat)
    requires n <= |es| && (n < |es| ==> IsBlock(node, es[n])) && forall i :: 0 <= i < n ==> !IsBlock(node, es[i])
    ensures BlockAt(node, es) == n
  {
  }

  /** More events do not move the first ones. */
  lemma {:induction false} BusStays(spec: Spec, es: seq<Device>, d: Device)
    ensures BusAt(spec, es + [d]) == if BusAt(spec, es) < |es| || IsBus(spec, d) then BusAt(spec, es) else |es| + 1
  {
    hide BusAt;
    var n := BusAt(spec, es);
    BusAtUnique(spec, es + [d], if n < |es| || IsBus(spec, d) then n else |es| + 1);
  }

  lemma {:induction false} BlockStays(node: string, es: seq<Device>, d: Device)
    ensures BlockAt(node, es + [d]) == if BlockAt(node, es) < |es| || IsBlock(node, d) then BlockAt(node, es) else |es| + 1
  {
    hide BlockAt;
    var n := BlockAt(node, es);
    BlockAtUnique(node, es + [d], if n < |es| || IsBlock(node, d) then n else |es| + 1);
  }

  /** In plain words: the first event that adds the image, and any event that adds its device node. */
  lemma {:induction false} MatchedMeans(spec: Spec, es: seq<Device>)
    ensures Matched(spec, es) <==>
              exists i, j :: 0 <= i < |es| && 0 <= j < |es| && IsBus(spec, es[i]) && IsBlock(Devnode(es[i]), es[j])
                             && forall k :: 0 <= k < i ==> !IsBus(spec, es[k])
  {
    hide BusAt, BlockAt;
    if i, j :| 0 <= i < |es| && 0 <= j < |es| && IsBus(spec, es[i]) && IsBlock(Devnode(es[i]), es[j])
               && forall k :: 0 <= k < i ==> !IsBus(spec, es[k])
    {
      BusAtUnique(spec, es, i);
    }
  }

  /** Once both have arrived they stay so: the first yes comes at the earliest possible event. */
  lemma {:induction false} MatchedStays(spec: Spec, es: seq<Device>, d: Device)
    requires Matched(spec, es)
    ensures Matched(spec, es + [d])
  {
    hide BusAt, BlockAt;
    BusStays(spec, es, d);
    BlockStays(Devnode(es[BusAt(spec, es)]), es, d);
  }

  /** The gathered block devices: everything that could be the one, in order of arrival. */
  predicate Candidate(d: Device) {
    d.action.Add? && d.subsystem.Block? && DEVNODE_PREFIX <= d.devnode
  }

  function Candidates(es: seq<Device>): (cs: seq<Device>)
    decreases |es|
  {
    if es == [] then []
    else
      var last := es[|es| - 1];
      Candidates(es[..|es| - 1]) + (if Candidate(last) then [last] else [])
  }

  lemma {:induction false} CandidatesFirst(es: seq<Device>, node: string)
    requires DEVNODE_PREFIX <= node
    ensures var cs := Candidates(es);
            && (BlockAt(node, es) < |es| <==> BlockAt(node, cs) < |cs|)
            && (BlockAt(node, cs) < |cs| ==> cs[BlockAt(node, cs)] == es[BlockAt(node, es)])
    decreases |es|
  {
    hide BlockAt;
    if es != [] {
      var init, last := es[..|es| - 1], es[|es| - 1];
      assert es == init + [last];
      CandidatesFirst(init, node);
      BlockStays(node, init, last);
      if Candidate(last) {
        BlockStays(node, Candidates(init), last);
      } else {
        assert Candidates(es) == Candidates(init) && !IsBlock(node, last);
      }
    }
  }

  class UdevMapHandler {
    const spec: Spec
    /** Whether rbd devices have a minor number among their attributes. */
    const minorAttr: bool
    var bus: Option<Device>
    var blocks: seq<Device>
    var node: string
    // what the caller gets
    var pdevnode: string
    var majnum: string
    var minnum: string
    /** No assertion has failed. */
    var sane: bool
    ghost var seen: seq<Device>

    constructor (s: Spec, haveMinorAttr: bool)
      ensures Valid() && spec == s && minorAttr == haveMinorAttr && seen == []
    {
      spec, minorAttr, bus, blocks, node := s, haveMinorAttr, None, [], "";
      pdevnode, majnum, minnum, sane, seen := "", "", "", true, [];
    }

    /** Not found so far; the image, once seen, is remembered, and until then every candidate is. */
    ghost predicate Valid()
      reads this
    {
      var n := BusAt(spec, seen);
      && !Matched(spec, seen) && sane
      && (bus.Some? <==> n < |seen|)
      && (bus.Some? ==> bus.value == seen[n] && node == Devnode(seen[n]) && blocks == [])
      && (bus.None? ==> blocks == Candidates(seen))
    }

    /** Both have been added, and the numbers are those of the first event for the node; the assertions hold if
        they agree with those of the image. */
    ghost predicate Found()
      reads this
    {
      && Matched(spec, seen)
      && var a, b := seen[BusAt(spec, seen)], seen[BlockAt(Devnode(seen[BusAt(spec, seen)]), seen)];
         && pdevnode == b.devnode == Devnode(a) && majnum == b.major && minnum == b.minor
         && (sane <==> b.major == a.major && (minorAttr ==> b.minor == a.minor))
    }

    /** Takes note of one event. */
    method Gather(dev: Device)
      requires Valid()
      modifies this`bus, this`blocks, this`node, this`seen
      ensures seen == old(seen) + [dev]
      ensures bus.Some? <==> BusAt(spec, seen) < |seen|
      ensures bus.Some? ==> bus.value == seen[BusAt(spec, seen)] && node == Devnode(bus.value)
      ensures old(bus).None? ==> blocks == Candidates(seen)
      ensures old(bus).Some? ==> bus == old(bus) && blocks == if Candidate(dev) then [dev] else []
    {
      hide BusAt, BlockAt;
      BusStays(spec, seen, dev);
      assert (seen + [dev])[..|seen|] == seen;
      seen := seen + [dev];
      if !dev.action.Add? { return; }
      if dev.subsystem.Rbd? {
        if bus.None? {
          if dev.spec == Some(spec) {
            bus := Some(dev);
            node := Devnode(dev);
          }
        }
      } else if dev.subsystem.Block? {
        if DEVNODE_PREFIX <= dev.devnode {
          blocks := blocks + [dev];
        }
      }
    }

    /** Handles one event; the answer is yes exactly when both parts have now been seen. */
    method Handle(dev: Device) returns (found: bool)
      requires Valid()
      modifies this`bus, this`blocks, this`node, this`seen, this`pdevnode, this`majnum, this`minnum, this`sane
      ensures seen == old(seen) + [dev]
      ensures found <==> Matched(spec, seen)
      ensures if found then Found() else Valid()
    {
      hide BusAt, BlockAt, Candidates;
      ghost var was := seen;
      ghost var had := bus.Some?;
      Gather(dev);
      if bus.Some? {
        BusStays(spec, was, dev);
        BlockStays(node, was, dev);
      }
      if bus.Some? && blocks != [] {
        for i := 0 to |blocks|
          invariant forall j :: 0 <= j < i ==> blocks[j].devnode != node
          invariant Gathered(was, dev) && sane
        {
          if blocks[i].devnode == node {
            FoundAt(was, dev, i);
            pdevnode := node;
            majnum := blocks[i].major;
            minnum := blocks[i].minor;
            sane := majnum == bus.value.major && (!minorAttr || minnum == bus.value.minor);
            return true;
          }
        }
        NotFound(was, dev);
        blocks := [];
      } else if bus.Some? {
        NoneGathered(was, dev, had);
      }
      found := false;
    }

    ghost predicate Gathered(was: seq<Device>, dev: Device)
      reads this
    {
      && seen == was + [dev]
      && bus.Some? && BusAt(spec, seen) < |seen|
      && bus.value == seen[BusAt(spec, seen)] && node == Devnode(bus.value)
      && (blocks == Candidates(seen) || (blocks == [dev] && Candidate(dev) && BlockAt(node, was) == |was|))
    }

    lemma FoundAt(was: seq<Device>, dev: Device, i: nat)
      requires Gathered(was, dev) && i < |blocks| && blocks[i].devnode == node
      requires forall j :: 0 <= j < i ==> blocks[j].devnode != node
      ensures BlockAt(node, seen) < |seen| && blocks[i] == seen[BlockAt(node, seen)]
    {
      hide BusAt, BlockAt, Candidates;
      BlockStays(node, was, dev);
      if blocks == Candidates(seen) {
        CandidatesAre(seen, i);
        BlockAtUnique(node, blocks, i);
        CandidatesFirst(seen, node);
      }
    }

    /** Nothing was gathered: no event so far can have been the block device. */
    lemma NoneGathered(was: seq<Device>, dev: Device, had: bool)
      requires seen == was + [dev] && bus.Some? && node == Devnode(bus.value) && blocks == []
      requires had ==> !Candidate(dev) && BlockAt(node, was) == |was|
      requires !had ==> blocks == Candidates(seen)
      ensures BlockAt(node, seen) == |seen|
    {
      hide BusAt, Candidates;
      BlockStays(node, was, dev);
      if !had { CandidatesFirst(seen, node); }
    }

    lemma NotFound(was: seq<Device>, dev: Device)
      requires Gathered(was, dev)
      requires forall j :: 0 <= j < |blocks| ==> blocks[j].devnode != node
      ensures BlockAt(node, seen) == |seen|
    {
      hide BusAt, BlockAt, Candidates;
      BlockStays(node, was, dev);
      if blocks == Candidates(seen) {
        BlockAtUnique(node, blocks, |blocks|);
        CandidatesFirst(seen, node);
      }
    }
  }

  lemma {:induction false} CandidatesAre(es: seq<Device>, i: nat)
    requires i < |Candidates(es)|
    ensures Candidate(Candidates(es)[i])
    decreases |es|
  {
    if i < |Candidates(es[..|es| - 1])| { CandidatesAre(es[..|es| - 1], i); }
  }

  // ---- the wait loop ----

  /** Why the monitor has no further event for now: try again later, or an error. */
  datatype Pause = TryAgain | Error(errno: int)

  /** What one poll() turns up: the kernel's answer to the sysfs write, if it is there, and the udev
      events that can be read, up to a pause. */
  datatype Round = Round(sysfs: Option<int>, ready: bool, events: seq<Device>, pause: Pause)

  /** Waiting for more rounds, stopped by a failed assertion, or done: <kernel error, false> when it
      was not mapped, <0 or udev error, true> when it was. */
  datatype Wait = Waiting | Aborted | Done(r: int, mapped: bool)

  /** The first answer of the kernel is `r`, in round `i`. */
  predicate FirstAnswer(rounds: seq<Round>, i: nat, r: int) {
    i < |rounds| && rounds[i].sysfs == Some(r) && forall j :: 0 <= j < i ==> rounds[j].sysfs.None?
  }

  ghost predicate Answered(rounds: seq<Round>, r: int) {
    exists i :: FirstAnswer(rounds, i, r)
  }

  predicate KernelSilent(rounds: seq<Round>) {
    forall i :: 0 <= i < |rounds| ==> rounds[i].sysfs.None?
  }

  /** The events that can be read in the first `n` rounds. */
  function ReadBy(rounds: seq<Round>, n: nat): seq<Device>
    requires n <= |rounds|
  {
    if n == 0 then [] else ReadBy(rounds, n - 1) + if rounds[n - 1].ready then rounds[n - 1].events else []
  }

  predicate MatchedWithin(spec: Spec, seen: seq<Device>, events: seq<Device>) {
    exists n :: 0 < n <= |events| && Matched(spec, seen + events[..n])
  }

  /** Some event of round `i` completes the match. */
  predicate MatchesAt(spec: Spec, rounds: seq<Round>, i: nat)
    requires i < |rounds|
  {
    rounds[i].ready && MatchedWithin(spec, ReadBy(rounds, i), rounds[i].events)
  }

  predicate ErrsAt(rounds: seq<Round>, i: nat)
    requires i < |rounds|
  {
    rounds[i].ready && rounds[i].pause.Error?
  }

  ghost predicate ErredWith(rounds: seq<Round>, r: int) {
    exists i :: 0 <= i < |rounds| && ErrsAt(rounds, i) && r == -rounds[i].pause.errno
  }

  predicate Silent(spec: Spec, rounds: seq<Round>, i: nat)
    requires i < |rounds|
  {
    !MatchesAt(spec, rounds, i) && !ErrsAt(rounds, i)
  }

  /** The udev side ends in round `i` with `r`: with 0 if some event completes the match, or else with the error
      behind the last of them. */
  predicate FirstEnd(spec: Spec, rounds: seq<Round>, i: nat, r: int) {
    && i < |rounds| && (forall j :: 0 <= j < i ==> Silent(spec, rounds, j))
    && if MatchesAt(spec, rounds, i) then r == 0 else ErrsAt(rounds, i) && r == -rounds[i].pause.errno
  }

  ghost predicate Ended(spec: Spec, rounds: seq<Round>, r: int) {
    exists i :: FirstEnd(spec, rounds, i, r)
  }

  predicate UdevSilent(spec: Spec, rounds: seq<Round>) {
    forall i :: 0 <= i < |rounds| ==> Silent(spec, rounds, i)
  }

  lemma AnsweredIs(rounds: seq<Round>, i: nat, r: int)
    requires FirstAnswer(rounds, i, r)
    ensures !KernelSilent(rounds) && forall q :: Answered(rounds, q) <==> q == r
  {
    forall q | Answered(rounds, q) ensures q == r {
      var j :| FirstAnswer(rounds, j, q);
      assert j == i;
    }
  }

  lemma EndedIs(spec: Spec, rounds: seq<Round>, i: nat, r: int)
    requires FirstEnd(spec, rounds, i, r)
    ensures !UdevSilent(spec, rounds) && forall q :: Ended(spec, rounds, q) <==> q == r
  {
    hide MatchesAt;
    assert !Silent(spec, rounds, i);
    forall q | Ended(spec, rounds, q) ensures q == r {
      var j :| FirstEnd(spec, rounds, j, q);
      assert !Silent(spec, rounds, i) && !Silent(spec, rounds, j);
      assert j == i;
    }
  }

  /** What the wait has to say, whatever the order in which the two sides answer: it was not mapped exactly if
      the first answer of the kernel is an error; it was mapped exactly if that is 0 and the udev side has
      ended, and then what is said is how; a positive answer is an assertion that fails once the udev side has
      ended; and it waits exactly as long as an answer is missing that is needed. */
  ghost predicate Judged(spec: Spec, rounds: seq<Round>, w: Wait) {
    && (forall r :: w == Done(r, false) <==> r < 0 && Answered(rounds, r))
    && (forall r :: w == Done(r, true) <==> Answered(rounds, 0) && Ended(spec, rounds, r))
    && (w.Aborted? <==> (exists k :: k > 0 && Answered(rounds, k)) && !UdevSilent(spec, rounds))
    && (w.Waiting? <==> KernelSilent(rounds) || (UdevSilent(spec, rounds) && forall k :: Answered(rounds, k) ==> k >= 0))
  }

  lemma NothingEnded(spec: Spec, rounds: seq<Round>)
    requires UdevSilent(spec, rounds)
    ensures forall r :: !Ended(spec, rounds, r)
  {
    hide MatchesAt;
    forall i: nat, r ensures !FirstEnd(spec, rounds, i, r) {
      if i < |rounds| { assert Silent(spec, rounds, i); }
    }
  }

  lemma RefusedJudged(spec: Spec, rounds: seq<Round>, i: nat, r: int)
    requires FirstAnswer(rounds, i, r) && r < 0
    ensures Judged(spec, rounds, Done(r, false))
  {
    hide Answered, Ended, KernelSilent, UdevSilent;
    AnsweredIs(rounds, i, r);
    assert Answered(rounds, r);
  }

  lemma BothJudged(spec: Spec, rounds: seq<Round>, i: nat, k: int, j: nat, r: int)
    requires FirstAnswer(rounds, i, k) && k >= 0 && FirstEnd(spec, rounds, j, r)
    ensures Judged(spec, rounds, if k == 0 then Done(r, true) else Aborted)
  {
    hide Answered, Ended, KernelSilent, UdevSilent;
    AnsweredIs(rounds, i, k);
    EndedIs(spec, rounds, j, r);
    assert Answered(rounds, k);
  }

  lemma WaitingJudged(spec: Spec, rounds: seq<Round>, i: nat, k: int)
    requires KernelSilent(rounds) || (FirstAnswer(rounds, i, k) && k >= 0 && UdevSilent(spec, rounds))
    ensures Judged(spec, rounds, Waiting)
  {
    hide Ended, UdevSilent;
    if !KernelSilent(rounds) {
      AnsweredIs(rounds, i, k);
      NothingEnded(spec, rounds);
    }
  }

  /** Reads the events of one round; the handler is not called again once it has said yes. */
  method ReadEvents(handler: UdevMapHandler, round: Round) returns (answer: Option<int>)
    requires handler.Valid()
    modifies handler
    ensures answer == if MatchedWithin(handler.spec, old(handler.seen), round.events) then Some(0)
                      else if round.pause.Error? then Some(-round.pause.errno) else None
    ensures answer.None? ==> handler.Valid() && handler.seen == old(handler.seen) + round.events
    ensures MatchedWithin(handler.spec, old(handler.seen), round.events) ==> handler.Found()
  {
    hide Matched, UdevMapHandler.Found, UdevMapHandler.Valid;
    ghost var seen := handler.seen;
    for i := 0 to |round.events|
      invariant handler.Valid() && handler.seen == seen + round.events[..i]
      invariant forall n :: 0 < n <= i ==> !Matched(handler.spec, seen + round.events[..n])
    {
      var found := handler.Handle(round.events[i]);
      assert seen + round.events[..i] + [round.events[i]] == seen + round.events[..i + 1];
      if found { return Some(0); }
    }
    assert round.events[..|round.events|] == round.events;
    if round.pause.Error? { return Some(-round.pause.errno); }
    return None;
  }

  /** Polls until both sides have answered or the kernel has refused. */
  method WaitForMapping(handler: UdevMapHandler, rounds: seq<Round>) returns (w: Wait, pollSysfs: bool, pollUdev: bool)
    requires handler.Valid() && handler.seen == []
    modifies handler
    ensures Judged(handler.spec, rounds, w)
    ensures w.Done? && w.mapped ==> handler.Found() || ErredWith(rounds, w.r)
    ensures w.Waiting? ==> (pollSysfs <==> KernelSilent(rounds)) && (pollUdev <==> UdevSilent(handler.spec, rounds))
  {
    hide Matched, MatchesAt, Judged, UdevMapHandler.Found, UdevMapHandler.Valid;
    var sysfs: Option<int>, udev: Option<int> := None, None;
    ghost var a: nat, u: nat := 0, 0;
    pollSysfs, pollUdev := true, true;
    for i := 0 to |rounds|
      invariant (pollSysfs <==> sysfs.None?) && (pollUdev <==> udev.None?) && (pollSysfs || pollUdev)
      invariant if sysfs.Some? then sysfs.value >= 0 && FirstAnswer(rounds, a, sysfs.value)
                else forall j :: 0 <= j < i ==> rounds[j].sysfs.None?
      invariant if udev.Some? then FirstEnd(handler.spec, rounds, u, udev.value)
                                && (MatchesAt(handler.spec, rounds, u) ==> handler.Found())
                else handler.Valid() && handler.seen == ReadBy(rounds, i) && forall j :: 0 <= j < i ==> Silent(handler.spec, rounds, j)
    {
      var round := rounds[i];
      if pollSysfs && round.sysfs.Some? {
        sysfs, a := round.sysfs, i;
        if sysfs.value < 0 {
          RefusedJudged(handler.spec, rounds, i, sysfs.value);
          return Done(sysfs.value, false), pollSysfs, pollUdev;
        }
        if udev.Some? {
          BothJudged(handler.spec, rounds, a, sysfs.value, u, udev.value);
          if sysfs.value != 0 { return Aborted, pollSysfs, pollUdev; }
          return Done(udev.value, true), pollSysfs, pollUdev;
        }
        pollSysfs := false;
      }
      MatchesNow(handler.spec, rounds, i);
      if pollUdev && round.ready {
        udev := ReadEvents(handler, round);
        u := i;
        if udev.Some? {
          if sysfs.Some? {
            BothJudged(handler.spec, rounds, a, sysfs.value, u, udev.value);
            if sysfs.value != 0 { return Aborted, pollSysfs, pollUdev; }
            return Done(udev.value, true), pollSysfs, pollUdev;
          }
          pollUdev := false;
        }
      }
    }
    w := Waiting;
    if udev.Some? { EndedIs(handler.spec, rounds, u, udev.value); }
    WaitingJudged(handler.spec, rounds, a, if sysfs.Some? then sysfs.value else 0);
  }

  lemma MatchesNow(spec: Spec, rounds: seq<Round>, i: nat)
    requires i < |rounds|
    ensures MatchesAt(spec, rounds, i) <==> rounds[i].ready && MatchedWithin(spec, ReadBy(rounds, i), rounds[i].events)
  {
  }
}
