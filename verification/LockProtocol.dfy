/** The lock that any number of clients take on one file: an expiring lock kept by the OSD of the
    first object, an owner attribute on that object, and the cluster's blocklist.  Every client call
    is broken into its round trips; requests that are handled by an OSD carry the map epoch of the
    client, and an OSD learns the blocklist only from the maps it has seen. */
module LockProtocol {
  import opened Wrappers
  import opened Rados

  /** A client is known by its address. */
  type Client = nat

  datatype Phase =
    | Idle
    | Trying                      // lock(): the compound fast-path request is under way
    | TakingLock                  // recover_lock(): the lock request is under way
    | ReadingOwner                // ... holding the lock, the owner attribute is being read
    | Blocklisting(dead: Client)  // ... the monitor is asked to blocklist the owner found
    | WaitingMap                  // ... the latest map is being fetched
    | SettingOwner                // ... the owner attribute is being set
    | Opening(fast: bool)         // owner, the attributes of the file are being read
    | Owning                      // owner, the file is in use

  /** An attribute update on its way: it always carries a version, and it may carry a size or an allocation. */
  datatype Update = Update(epoch: nat, size: Option<nat>, alloc: Option<nat>, version: nat)

  /** Whether the last update that carried the size, or the allocation, or a version, has failed. */
  datatype Doubt = Doubt(size: bool, alloc: bool, version: bool)

  const SURE: Doubt := Doubt(false, false, false)

  /** A data operation on its way to the object of one stripe. */
  datatype Transfer = Transfer(epoch: nat, stripe: nat)

  datatype Local = Local(phase: Phase, epoch: nat, since: nat, mem: Xattrs, doubt: Doubt,
                         updates: seq<Update>, transfers: seq<Transfer>, touched: set<nat>)

  /** A client is put on the blocklist, or its entry expires. */
  datatype Change = Add(c: Client) | Drop(c: Client)

  /** `mon` lists the changes of the blocklist so far, one map epoch each; `osd` is the epoch that the OSD
      of each object has reached; `last` is the memory of the last owner that unlocked (what it found,
      if it never got to use the file) and `unsure` which of its last updates had failed. */
  datatype State = State(excl: Option<Client>, holder: Option<Client>, mon: seq<Change>, osd: map<nat, nat>,
                         stored: Xattrs, last: Xattrs, unsure: Doubt, local: map<Client, Local>)

  datatype Event =
    | Lock(c: Client)
    | FastPath(c: Client)
    | TakeLock(c: Client)
    | ReadOwner(c: Client)
    | Blocklist(c: Client)
    | FetchMap(c: Client)
    | MissMap(c: Client)
    | SetOwner(c: Client)
    | GiveUp(c: Client)
    | Open(c: Client)
    | Send(c: Client, size: Option<nat>, alloc: Option<nat>)
    | Deliver(c: Client)
    | Fail(c: Client)
    | Transmit(c: Client, stripe: nat)
    | Arrive(c: Client, i: nat)
    | Unlock(c: Client)
    | Expire
    | Ban(c: Client)
    | Forgive(c: Client)
    | Learn(c: Client)
    | Gossip(k: nat)

  const NOBODY: Local := Local(Idle, 0, 0, Xattrs(0, 0, 0), SURE, [], [], {})

  function Of(s: State, c: Client): Local {
    if c in s.local then s.local[c] else NOBODY
  }

  function Osd(s: State, k: nat): nat {
    if k in s.osd then s.osd[k] else 0
  }

  function Max(a: nat, b: nat): nat {
    if a < b then b else a
  }

  /** The epoch of an OSD once it has handled a request with epoch `e`. */
  function Seen(s: State, k: nat, e: nat): nat {
    Max(Osd(s, k), e)
  }

  /** `c` is on the blocklist as it was at epoch `e`: its last change until then put it there. */
  predicate Listed(mon: seq<Change>, c: Client, e: nat) {
    exists i :: 0 <= i < e && i < |mon| && mon[i] == Add(c) && Kept(mon, c, i, e)
  }

  /** `c` is on the blocklist of epoch `e` and has been on all since. */
  predicate Sealed(mon: seq<Change>, c: Client, e: nat) {
    exists i :: 0 <= i < e && i < |mon| && mon[i] == Add(c) && Kept(mon, c, i, |mon|)
  }

  /** No entry of `c` expires in the epochs from `i` to `e`. */
  predicate Kept(mon: seq<Change>, c: Client, i: nat, e: nat) {
    forall j :: i <= j < e && j < |mon| ==> mon[j] != Drop(c)
  }

  /** `c` has been on the blocklist at some time. */
  predicate Fenced(s: State, c: Client) {
    Add(c) in s.mon
  }

  predicate IsOwner(l: Local) {
    l.phase.Opening? || l.phase.Owning?
  }

  function SetLocal(s: State, c: Client, l: Local): State {
    s.(local := s.local[c := l])
  }

  function GoTo(s: State, c: Client, phase: Phase): State {
    SetLocal(s, c, Of(s, c).(phase := phase))
  }

  function AtLeast(s: State, k: nat, e: nat): State {
    s.(osd := s.osd[k := Seen(s, k, e)])
  }

  function LearnEpoch(s: State, c: Client, e: nat): State {
    SetLocal(s, c, Of(s, c).(epoch := Max(Of(s, c).epoch, e)))
  }

  /** The OSD of object `k` handles a request of `c` stamped `e` and shares its map with `c`. */
  function Contact(s: State, c: Client, k: nat, e: nat): State {
    LearnEpoch(AtLeast(s, k, e), c, Seen(s, k, e))
  }

  function BecomeOwner(s: State, c: Client, fast: bool): State {
    SetLocal(s.(excl := Some(c)), c,
             Of(s, c).(phase := Opening(fast), since := Of(s, c).epoch, touched := {}))
  }

  predicate Enabled(s: State, e: Event) {
    match e
    case Lock(c) => Of(s, c).phase.Idle?
    case FastPath(c) => Of(s, c).phase.Trying?
    case TakeLock(c) => Of(s, c).phase.TakingLock?
    case ReadOwner(c) => Of(s, c).phase.ReadingOwner?
    case Blocklist(c) => Of(s, c).phase.Blocklisting?
    case FetchMap(c) => Of(s, c).phase.WaitingMap?
    // the wait for the latest map fails, which is not looked at
    case MissMap(c) => Of(s, c).phase.WaitingMap?
    case SetOwner(c) => Of(s, c).phase.SettingOwner?
    case GiveUp(c) => !Of(s, c).phase.Idle? && !IsOwner(Of(s, c))
    case Open(c) => Of(s, c).phase.Opening?
    case Send(c, _, _) => Of(s, c).phase.Owning?
    case Deliver(c) => Of(s, c).updates != []
    case Fail(c) => Of(s, c).updates != []
    case Transmit(c, _) => Of(s, c).phase.Owning?
    case Arrive(c, i) => i < |Of(s, c).transfers|
    // unlock() has flushed: nothing of this client is under way any more
    case Unlock(c) => IsOwner(Of(s, c)) && Of(s, c).updates == [] && Of(s, c).transfers == []
    // a lease may run out at any time
    case Expire => s.holder.Some?
    case Ban(_) => true
    case Forgive(_) => true
    case Learn(_) => true
    case Gossip(_) => true
  }

  function Next(s: State, e: Event): State
    requires Enabled(s, e)
  {
    match e
    case Lock(c) => GoTo(s, c, Trying)
    case FastPath(c) => FastPathNext(s, c)
    case TakeLock(c) => TakeLockNext(s, c)
    case ReadOwner(c) => ReadOwnerNext(s, c)
    case Blocklist(c) => GoTo(s.(mon := s.mon + [Add(Of(s, c).phase.dead)]), c, WaitingMap)
    case FetchMap(c) => SetLocal(s, c, Of(s, c).(phase := SettingOwner, epoch := |s.mon|))
    case MissMap(c) => GoTo(s, c, SettingOwner)
    case SetOwner(c) => SetOwnerNext(s, c)
    case GiveUp(c) => GoTo(s, c, Idle)
    case Open(c) => OpenNext(s, c)
    case Send(c, size, alloc) => SetLocal(s, c, Sent(Of(s, c), size, alloc))
    case Deliver(c) => DeliverNext(s, c)
    case Fail(c) => SetLocal(s, c, Failing(Of(s, c)))
    case Transmit(c, k) =>
      var l := Of(s, c);
      SetLocal(s, c, l.(transfers := l.transfers + [Transfer(l.epoch, k)]))
    case Arrive(c, i) => ArriveNext(s, c, i)
    case Unlock(c) => UnlockNext(s, c)
    case Expire => s.(holder := None)
    case Ban(c) => s.(mon := s.mon + [Add(c)])
    case Forgive(c) => s.(mon := s.mon + [Drop(c)])
    case Learn(c) => LearnEpoch(s, c, |s.mon|)
    case Gossip(k) => AtLeast(s, k, |s.mon|)
  }

  /** The attributes once an update has landed. */
  function Applied(x: Xattrs, u: Update): Xattrs {
    Xattrs(if u.size.Some? then u.size.value else x.size, if u.alloc.Some? then u.alloc.value else x.alloc, u.version)
  }

  /** The next update is sent; memory is as if it had landed. */
  function Sent(l: Local, size: Option<nat>, alloc: Option<nat>): Local {
    var u := Update(l.epoch, size, alloc, l.mem.version + 1);
    l.(mem := Applied(l.mem, u), updates := l.updates + [u],
       doubt := Doubt(l.doubt.size && size.None?, l.doubt.alloc && alloc.None?, false))
  }

  predicate CarrySize(us: seq<Update>) {
    exists i :: 0 <= i < |us| && us[i].size.Some?
  }

  predicate CarryAlloc(us: seq<Update>) {
    exists i :: 0 <= i < |us| && us[i].alloc.Some?
  }

  /** The oldest update fails, which nobody looks at; a later one may make up for it. */
  function Failing(l: Local): Local
    requires l.updates != []
  {
    var u, rest := l.updates[0], l.updates[1..];
    l.(updates := rest,
       doubt := Doubt(l.doubt.size || (u.size.Some? && !CarrySize(rest)),
                      l.doubt.alloc || (u.alloc.Some? && !CarryAlloc(rest)),
                      l.doubt.version || rest == []))
  }

  predicate Refused(s: State, c: Client, k: nat, e: nat) {
    Listed(s.mon, c, Seen(s, k, e))
  }

  /** Take the lock, check that the owner attribute is empty, set it: all or nothing. */
  function FastPathNext(s: State, c: Client): State {
    var t := Contact(s, c, 0, Of(s, c).epoch);
    if Refused(s, c, 0, Of(s, c).epoch) then GoTo(t, c, Idle)
    else if s.holder.Some? && s.holder.value != c then t                 // EBUSY: try again
    else if s.holder.Some? then GoTo(t, c, Idle)                         // EEXIST
    else if s.excl.Some? then GoTo(t, c, TakingLock)                     // ECANCELED: recover
    else BecomeOwner(t.(holder := Some(c)), c, true)
  }

  function TakeLockNext(s: State, c: Client): State {
    var t := Contact(s, c, 0, Of(s, c).epoch);
    if Refused(s, c, 0, Of(s, c).epoch) then GoTo(t, c, Idle)
    else if s.holder.Some? && s.holder.value != c then GoTo(t, c, Trying) // EBUSY: start over
    else if s.holder.Some? then GoTo(t, c, Idle)                          // EEXIST
    else GoTo(t.(holder := Some(c)), c, ReadingOwner)
  }

  function ReadOwnerNext(s: State, c: Client): State {
    var t := Contact(s, c, 0, Of(s, c).epoch);
    if Refused(s, c, 0, Of(s, c).epoch) then GoTo(t, c, Idle)
    else if s.excl.Some? then GoTo(t, c, Blocklisting(s.excl.value))
    else GoTo(t, c, SettingOwner)
  }

  function SetOwnerNext(s: State, c: Client): State {
    var t := Contact(s, c, 0, Of(s, c).epoch);
    if Refused(s, c, 0, Of(s, c).epoch) then GoTo(t, c, Idle)
    else BecomeOwner(t, c, false)
  }

  /** lock() ends by reading the attributes; if that is refused the client stays as it is. */
  function OpenNext(s: State, c: Client): State {
    var t := Contact(s, c, 0, Of(s, c).epoch);
    if Refused(s, c, 0, Of(s, c).epoch) then t
    else SetLocal(t, c, Of(t, c).(phase := Owning, mem := s.stored, doubt := SURE))
  }

  function DeliverNext(s: State, c: Client): State
    requires Of(s, c).updates != []
  {
    var u := Of(s, c).updates[0];
    var t := Contact(s, c, 0, u.epoch);
    var t' := SetLocal(t, c, Of(t, c).(updates := Of(s, c).updates[1..]));
    if Refused(s, c, 0, u.epoch) then t' else t'.(stored := Applied(s.stored, u))
  }

  function ArriveNext(s: State, c: Client, i: nat): State
    requires i < |Of(s, c).transfers|
  {
    var l := Of(s, c);
    var x := l.transfers[i];
    var t := Contact(s, c, x.stripe, x.epoch);
    var m := Of(t, c).(transfers := l.transfers[..i] + l.transfers[i + 1..]);
    if Refused(s, c, x.stripe, x.epoch) then SetLocal(t, c, m)
    else SetLocal(t, c, m.(touched := m.touched + {x.stripe}))
  }

  /** Check that the owner attribute is still ours, empty it, drop the lock: all or nothing. */
  function UnlockNext(s: State, c: Client): State {
    var t := Contact(s, c, 0, Of(s, c).epoch);
    if Refused(s, c, 0, Of(s, c).epoch) || s.excl != Some(c) || s.holder != Some(c) then t
    else
      var l := Of(s, c);
      GoTo(t.(excl := None, holder := None, last := if l.phase.Owning? then l.mem else s.stored,
              unsure := if l.phase.Owning? then l.doubt else SURE), c, Idle)
  }

  // ---- runs ----

  function Run(s: State, es: seq<Event>): (r: Option<State>)
    decreases |es|
  {
    if es == [] then Some(s)
    else if Enabled(s, es[0]) then Run(Next(s, es[0]), es[1..])
    else None
  }

  predicate Initial(s: State) {
    s.excl.None? && s.holder.None? && s.mon == [] && s.osd == map[] && s.local == map[] && s.last == s.stored
    && s.unsure == SURE
  }

  // ---- the invariant, client by client ----

  /** Where the stored attributes will be once the updates have landed. */
  function LandedAt(x: Xattrs, us: seq<Update>): Xattrs
    decreases |us|
  {
    if us == [] then x else LandedAt(Applied(x, us[0]), us[1..])
  }

  /** Versions ascend from `v` on. */
  predicate Ordered(v: nat, us: seq<Update>)
    decreases |us|
  {
    us == [] || (v < us[0].version && Ordered(us[0].version, us[1..]))
  }

  /** The attributes `x` are those in memory as far as there is no doubt, and the version exactly then. */
  predicate Matches(x: Xattrs, m: Xattrs, d: Doubt) {
    && (!d.size ==> x.size == m.size) && (!d.alloc ==> x.alloc == m.alloc)
    && x.version <= m.version && (x.version == m.version <==> !d.version)
  }

  /** The same of what will be stored once the updates have landed. */
  predicate Tracks(x: Xattrs, l: Local) {
    Matches(LandedAt(x, l.updates), l.mem, l.doubt) && Ordered(x.version, l.updates)
  }

  lemma {:induction false} LandedAtSnoc(x: Xattrs, us: seq<Update>, u: Update)
    ensures LandedAt(x, us + [u]) == Applied(LandedAt(x, us), u)
    ensures Ordered(x.version, us) && LandedAt(x, us).version < u.version ==> Ordered(x.version, us + [u])
    decreases |us|
  {
    if us == [] {
      assert ([] + [u])[1..] == [];
    } else {
      assert (us + [u])[1..] == us[1..] + [u];
      LandedAtSnoc(Applied(x, us[0]), us[1..], u);
    }
  }

  /** What the updates carry does not depend on what was stored before; the rest they leave alone. */
  lemma {:induction false} LandedAtFrom(x: Xattrs, y: Xattrs, us: seq<Update>)
    ensures LandedAt(x, us).size == if CarrySize(us) then LandedAt(y, us).size else x.size
    ensures LandedAt(x, us).alloc == if CarryAlloc(us) then LandedAt(y, us).alloc else x.alloc
    ensures LandedAt(x, us).version == if us != [] then LandedAt(y, us).version else x.version
    decreases |us|
  {
    if us != [] {
      var rest := us[1..];
      LandedAtFrom(Applied(x, us[0]), Applied(y, us[0]), rest);
      LandedAtFrom(Applied(y, us[0]), Applied(x, us[0]), rest);
      assert forall i :: 0 <= i < |rest| ==> rest[i] == us[i + 1];
      assert CarrySize(us) <==> us[0].size.Some? || CarrySize(rest);
      assert CarryAlloc(us) <==> us[0].alloc.Some? || CarryAlloc(rest);
    }
  }

  lemma {:induction false} OrderedFrom(v: nat, w: nat, us: seq<Update>)
    requires Ordered(w, us) && v <= w
    ensures Ordered(v, us)
  {
  }

  lemma {:induction false} OrderedEnd(x: Xattrs, us: seq<Update>)
    requires Ordered(x.version, us)
    ensures x.version <= LandedAt(x, us).version && (us != [] ==> x.version < LandedAt(x, us).version)
    decreases |us|
  {
    if us != [] { OrderedEnd(Applied(x, us[0]), us[1..]); }
  }

  lemma SentTracks(x: Xattrs, l: Local, size: Option<nat>, alloc: Option<nat>)
    requires Tracks(x, l)
    ensures Tracks(x, Sent(l, size, alloc))
  {
    hide LandedAt, Ordered;
    LandedAtSnoc(x, l.updates, Update(l.epoch, size, alloc, l.mem.version + 1));
  }

  lemma FailingTracks(x: Xattrs, l: Local)
    requires Tracks(x, l) && l.updates != []
    ensures Tracks(x, Failing(l))
  {
    var u, rest := l.updates[0], l.updates[1..];
    LandedAtFrom(x, Applied(x, u), rest);
    LandedAtFrom(Applied(x, u), x, rest);
    OrderedFrom(x.version, u.version, rest);
    OrderedEnd(x, l.updates);
  }

  lemma LandingTracks(x: Xattrs, l: Local)
    requires Tracks(x, l) && l.updates != []
    ensures Tracks(Applied(x, l.updates[0]), l.(updates := l.updates[1..]))
  {
  }

  /** Every owner either is named by the owner attribute or is fenced off from the first object. */
  predicate OwnerOk(s: State, c: Client) {
    IsOwner(Of(s, c)) ==> s.excl == Some(c) || Sealed(s.mon, c, Osd(s, 0))
  }

  /** What a recovering client found out about the old owner still holds, as long as it holds the lock. */
  predicate RecoveryOk(s: State, c: Client) {
    var l := Of(s, c);
    s.holder == Some(c) ==>
      && (l.phase.Blocklisting? ==> s.excl == Some(l.phase.dead))
      && (l.phase.WaitingMap? && s.excl.Some? ==> Sealed(s.mon, s.excl.value, |s.mon|))
      && (l.phase.SettingOwner? && s.excl.Some? ==> Sealed(s.mon, s.excl.value, l.epoch))
  }

  predicate Stamped(l: Local, e: nat) {
    l.since <= e <= l.epoch
  }

  predicate EpochOk(s: State, c: Client) {
    var l := Of(s, c);
    && l.epoch <= |s.mon| && l.since <= l.epoch
    && (forall u :: u in l.updates ==> Stamped(l, u.epoch))
    && (forall x :: x in l.transfers ==> Stamped(l, x.epoch))
    && (!l.phase.Owning? ==> l.updates == [] && l.transfers == [])
    && (forall k :: k in l.touched ==> l.since <= Osd(s, k))
  }

  /** The owner's ops carry an epoch at which all other owners are blocklisted. */
  predicate RivalOk(s: State, c: Client, d: Client) {
    s.excl == Some(c) && IsOwner(Of(s, c)) && d != c && IsOwner(Of(s, d)) ==> Sealed(s.mon, d, Of(s, c).since)
  }

  predicate AttributesOk(s: State, c: Client) {
    var l := Of(s, c);
    s.excl == Some(c) ==>
      && (l.phase == Opening(true) ==> Matches(s.stored, s.last, s.unsure))
      && IsOwner(l)
      && (l.phase.Owning? && !Sealed(s.mon, c, Osd(s, 0)) ==> Tracks(s.stored, l))
  }

  ghost predicate Inv(s: State) {
    Standing(s) == Sound
  }

  ghost function Standing(s: State): Verdict {
    if && (forall c :: OwnerOk(s, c) && RecoveryOk(s, c) && EpochOk(s, c) && AttributesOk(s, c))
       && (forall c, d :: RivalOk(s, c, d))
       && (forall k :: Osd(s, k) <= |s.mon|)
       && (s.excl.None? ==> Matches(s.stored, s.last, s.unsure))
    then Sound else Broken
  }

  /** No owner has an entry that expires in a map which the OSD of the first object is yet to see. */
  ghost predicate Undropped(s: State) {
    forall c :: IsOwner(Of(s, c)) ==> Kept(s.mon, c, Osd(s, 0), |s.mon|)
  }

  // ---- the blocklist ----

  /** An entry that has not expired since is on every later list. */
  lemma SealedLater(mon: seq<Change>, c: Client, e: nat, e': nat)
    requires Sealed(mon, c, e) && e <= e'
    ensures Sealed(mon, c, e') && Listed(mon, c, e')
  {
    var i :| 0 <= i < e && i < |mon| && mon[i] == Add(c) && Kept(mon, c, i, |mon|);
    assert Kept(mon, c, i, e');
  }

  lemma SealedAppend(mon: seq<Change>, x: Change, c: Client, e: nat)
    requires e <= |mon| && x != Drop(c)
    ensures Sealed(mon + [x], c, e) == Sealed(mon, c, e)
  {
    var mon' := mon + [x];
    forall i: nat | i < e ensures Kept(mon', c, i, |mon'|) == Kept(mon, c, i, |mon|) {
      assert forall j :: 0 <= j < |mon| ==> mon'[j] == mon[j];
    }
    assert forall i :: 0 <= i < e ==> mon'[i] == mon[i];
  }

  lemma SealedAdd(mon: seq<Change>, c: Client)
    ensures Sealed(mon + [Add(c)], c, |mon| + 1)
  {
    var mon' := mon + [Add(c)];
    assert mon'[|mon|] == Add(c) && Kept(mon', c, |mon|, |mon'|);
  }

  /** Who is on a list, with no expiry still to come, is sealed off. */
  lemma ListedSealed(mon: seq<Change>, c: Client, from: nat, e: nat)
    requires Listed(mon, c, e) && from <= e && Kept(mon, c, from, |mon|)
    ensures Sealed(mon, c, e)
  {
    var i :| 0 <= i < e && i < |mon| && mon[i] == Add(c) && Kept(mon, c, i, e);
    assert Kept(mon, c, i, |mon|);
  }

  // ---- every step keeps the invariant ----

  /** Nothing about a state but one client's own record has changed. */
  ghost predicate OnlyLocal(s: State, t: State, c: Client) {
    t == s.(local := t.local) && forall d :: d != c ==> Of(t, d) == Of(s, d)
  }

  lemma InvAt(s: State, c: Client)
    requires Inv(s)
    ensures OwnerOk(s, c) && RecoveryOk(s, c) && EpochOk(s, c) && AttributesOk(s, c)
    ensures Osd(s, 0) <= |s.mon|
    ensures s.excl.None? ==> Matches(s.stored, s.last, s.unsure)
  {
  }

  lemma RivalAt(s: State, c: Client, d: Client)
    requires Inv(s)
    ensures RivalOk(s, c, d)
  {
  }

  /** Any change of one client's record that keeps what is said about that client is harmless. */
  lemma LocalKeeps(s: State, t: State, c: Client)
    requires Inv(s) && OnlyLocal(s, t, c)
    requires OwnerOk(t, c) && RecoveryOk(t, c) && EpochOk(t, c) && AttributesOk(t, c)
    requires IsOwner(Of(t, c)) ==> IsOwner(Of(s, c)) && Of(t, c).since == Of(s, c).since
    ensures Inv(t)
  {
    hide Listed, Sealed;
    forall d ensures OwnerOk(t, d) && RecoveryOk(t, d) && EpochOk(t, d) && AttributesOk(t, d) {
      if d != c {
        assert OwnerOk(s, d) && RecoveryOk(s, d) && EpochOk(s, d) && AttributesOk(s, d);
      }
    }
    forall a, b ensures RivalOk(t, a, b) { assert RivalOk(s, a, b); }
    forall k ensures Osd(t, k) <= |t.mon| { assert Osd(s, k) <= |s.mon|; }
  }

  /** A client learning a newer map never hurts. */
  lemma LearnKeeps(s: State, c: Client, e: nat)
    requires Inv(s) && e <= |s.mon|
    ensures Inv(LearnEpoch(s, c, e))
  {
    hide Standing, Listed, Sealed;
    var t := LearnEpoch(s, c, e);
    InvAt(s, c);
    if s.excl.Some? && Sealed(s.mon, s.excl.value, Of(s, c).epoch) {
      SealedLater(s.mon, s.excl.value, Of(s, c).epoch, Of(t, c).epoch);
    }
    LocalKeeps(s, t, c);
  }

  /** An OSD learning a newer map never hurts. */
  lemma AtLeastKeeps(s: State, k: nat, e: nat)
    requires Inv(s) && e <= |s.mon|
    ensures Inv(AtLeast(s, k, e))
  {
    hide Listed, Sealed;
    var t := AtLeast(s, k, e);
    assert forall j :: Osd(s, j) <= Osd(t, j);
    forall j ensures Osd(t, j) <= |t.mon| { assert Osd(s, j) <= |s.mon|; }
    forall d ensures OwnerOk(t, d) && RecoveryOk(t, d) && EpochOk(t, d) && AttributesOk(t, d) {
      InvAt(s, d);
      if Sealed(s.mon, d, Osd(s, 0)) { SealedLater(s.mon, d, Osd(s, 0), Osd(t, 0)); }
    }
    forall a, b ensures RivalOk(t, a, b) { assert RivalOk(s, a, b); }
  }

  lemma ContactKeeps(s: State, c: Client, k: nat, e: nat)
    requires Inv(s) && e <= |s.mon|
    ensures Inv(Contact(s, c, k, e))
  {
    hide Standing;
    AtLeastKeeps(s, k, e);
    assert Osd(s, k) <= |s.mon| by { InvOsd(s, k); }
    LearnKeeps(AtLeast(s, k, e), c, Seen(s, k, e));
  }

  lemma InvOsd(s: State, k: nat)
    requires Inv(s)
    ensures Osd(s, k) <= |s.mon|
  {
  }

  /** A client that does not own the file starts, retries or gives up. */
  lemma BackKeeps(s: State, c: Client, phase: Phase)
    requires Inv(s) && !IsOwner(Of(s, c)) && (phase.Idle? || phase.Trying? || phase.TakingLock?)
    ensures Inv(GoTo(s, c, phase))
  {
    hide Standing, Listed, Sealed;
    InvAt(s, c);
    LocalKeeps(s, GoTo(s, c, phase), c);
  }

  /** The lease runs out. */
  lemma ReleaseKeeps(s: State)
    requires Inv(s)
    ensures Inv(s.(holder := None))
  {
    hide Listed, Sealed;
    var t := s.(holder := None);
    forall d ensures OwnerOk(t, d) && RecoveryOk(t, d) && EpochOk(t, d) && AttributesOk(t, d) { InvAt(s, d); }
    forall a, b ensures RivalOk(t, a, b) { assert RivalOk(s, a, b); }
    forall k ensures Osd(t, k) <= |t.mon| { assert Osd(s, k) <= |s.mon|; }
  }

  /** A free lock is taken, by a client that goes on to recover. */
  lemma TakeKeeps(s: State, c: Client)
    requires Inv(s) && s.holder.None? && !IsOwner(Of(s, c))
    ensures Inv(GoTo(s.(holder := Some(c)), c, ReadingOwner))
  {
    hide Listed, Sealed;
    var t := GoTo(s.(holder := Some(c)), c, ReadingOwner);
    forall d ensures OwnerOk(t, d) && RecoveryOk(t, d) && EpochOk(t, d) && AttributesOk(t, d) { InvAt(s, d); }
    forall a, b ensures RivalOk(t, a, b) { assert RivalOk(s, a, b); }
    forall k ensures Osd(t, k) <= |t.mon| { assert Osd(s, k) <= |s.mon|; }
  }

  lemma FoundOwnerKeeps(s: State, c: Client)
    requires Inv(s) && Of(s, c).phase.ReadingOwner?
    ensures Inv(GoTo(s, c, if s.excl.Some? then Blocklisting(s.excl.value) else SettingOwner))
  {
    hide Standing, Listed, Sealed;
    InvAt(s, c);
    LocalKeeps(s, GoTo(s, c, if s.excl.Some? then Blocklisting(s.excl.value) else SettingOwner), c);
  }

  /** Changing the blocklist is harmless, unless it is an owner whose entry expires. */
  lemma ChangeKeeps(s: State, x: Change)
    requires Inv(s) && (x.Drop? ==> !IsOwner(Of(s, x.c)))
    ensures Inv(s.(mon := s.mon + [x]))
  {
    hide Listed, Sealed;
    var t := s.(mon := s.mon + [x]);
    forall d ensures OwnerOk(t, d) && RecoveryOk(t, d) && EpochOk(t, d) && AttributesOk(t, d) {
      InvAt(s, d);
      if x != Drop(d) { SealedAppend(s.mon, x, d, Osd(s, 0)); }
      if s.excl.Some? {
        InvAt(s, s.excl.value);
        SealedAppend(s.mon, x, s.excl.value, Of(s, d).epoch);
        SealedAppend(s.mon, x, s.excl.value, |s.mon|);
        if Sealed(t.mon, s.excl.value, |s.mon|) { SealedLater(t.mon, s.excl.value, |s.mon|, |t.mon|); }
      }
    }
    forall a, b ensures RivalOk(t, a, b) {
      assert RivalOk(s, a, b);
      InvAt(s, a);
      if x != Drop(b) { SealedAppend(s.mon, x, b, Of(s, a).since); }
    }
    forall k ensures Osd(t, k) <= |t.mon| { assert Osd(s, k) <= |s.mon|; }
  }

  lemma BlocklistKeeps(s: State, c: Client)
    requires Inv(s) && Of(s, c).phase.Blocklisting?
    ensures Inv(Next(s, Blocklist(c)))
  {
    hide Standing, Sealed, Listed;
    var x := Of(s, c).phase.dead;
    var t := s.(mon := s.mon + [Add(x)]);
    ChangeKeeps(s, Add(x));
    InvAt(t, c);
    SealedAdd(s.mon, x);
    LocalKeeps(t, GoTo(t, c, WaitingMap), c);
  }

  lemma FetchMapKeeps(s: State, c: Client)
    requires Inv(s) && Of(s, c).phase.WaitingMap?
    ensures Inv(Next(s, FetchMap(c)))
  {
    hide Standing, Listed, Sealed;
    InvAt(s, c);
    LocalKeeps(s, Next(s, FetchMap(c)), c);
  }

  /** A client becomes owner when nobody is, or when the owner before it is fenced off from the first
      object and the newcomer has the map that says so. */
  lemma OwnKeeps(s: State, c: Client, fast: bool)
    requires Inv(s) && !IsOwner(Of(s, c)) && (s.holder.None? || s.holder == Some(c))
    requires s.excl.Some? ==> Sealed(s.mon, s.excl.value, Osd(s, 0))
    requires Osd(s, 0) <= Of(s, c).epoch && (fast ==> s.excl.None?)
    ensures Inv(BecomeOwner(s.(holder := Some(c)), c, fast))
  {
    hide Listed, Sealed;
    var t := BecomeOwner(s.(holder := Some(c)), c, fast);
    forall d ensures OwnerOk(t, d) && RecoveryOk(t, d) && EpochOk(t, d) && AttributesOk(t, d) { InvAt(s, d); }
    forall a, b ensures RivalOk(t, a, b) {
      InvAt(s, b);
      if a == c && b != c && IsOwner(Of(s, b)) {
        assert Sealed(s.mon, b, Osd(s, 0));
        SealedLater(s.mon, b, Osd(s, 0), Of(t, c).since);
      }
    }
    forall k ensures Osd(t, k) <= |t.mon| { assert Osd(s, k) <= |s.mon|; }
  }

  lemma FastPathKeeps(s: State, c: Client)
    requires Inv(s) && Of(s, c).phase.Trying?
    ensures Inv(FastPathNext(s, c))
  {
    hide Standing, Listed, Sealed;
    var t := Contact(s, c, 0, Of(s, c).epoch);
    InvAt(s, c);
    ContactKeeps(s, c, 0, Of(s, c).epoch);
    if Refused(s, c, 0, Of(s, c).epoch) || s.holder == Some(c) {
      BackKeeps(t, c, Idle);
    } else if s.holder.None? && s.excl.Some? {
      BackKeeps(t, c, TakingLock);
    } else if s.holder.None? {
      OwnKeeps(t, c, true);
    }
  }

  lemma TakeLockKeeps(s: State, c: Client)
    requires Inv(s) && Of(s, c).phase.TakingLock?
    ensures Inv(TakeLockNext(s, c))
  {
    hide Standing, Listed, Sealed;
    var t := Contact(s, c, 0, Of(s, c).epoch);
    InvAt(s, c);
    ContactKeeps(s, c, 0, Of(s, c).epoch);
    if Refused(s, c, 0, Of(s, c).epoch) || s.holder == Some(c) {
      BackKeeps(t, c, Idle);
    } else if s.holder.Some? {
      BackKeeps(t, c, Trying);
    } else {
      TakeKeeps(t, c);
    }
  }

  lemma ReadOwnerKeeps(s: State, c: Client)
    requires Inv(s) && Of(s, c).phase.ReadingOwner?
    ensures Inv(ReadOwnerNext(s, c))
  {
    hide Standing, Listed, Sealed;
    var t := Contact(s, c, 0, Of(s, c).epoch);
    InvAt(s, c);
    ContactKeeps(s, c, 0, Of(s, c).epoch);
    if Refused(s, c, 0, Of(s, c).epoch) {
      BackKeeps(t, c, Idle);
    } else {
      FoundOwnerKeeps(t, c);
    }
  }

  lemma SetOwnerKeeps(s: State, c: Client)
    requires Inv(s) && Of(s, c).phase.SettingOwner? && s.holder == Some(c)
    ensures Inv(SetOwnerNext(s, c))
  {
    hide Standing, Listed, Sealed;
    var t := Contact(s, c, 0, Of(s, c).epoch);
    InvAt(s, c);
    ContactKeeps(s, c, 0, Of(s, c).epoch);
    if Refused(s, c, 0, Of(s, c).epoch) {
      BackKeeps(t, c, Idle);
    } else {
      if s.excl.Some? { SealedLater(s.mon, s.excl.value, Of(s, c).epoch, Osd(t, 0)); }
      assert t.(holder := Some(c)) == t;
      OwnKeeps(t, c, false);
    }
  }

  lemma OpenKeeps(s: State, c: Client)
    requires Inv(s) && Of(s, c).phase.Opening?
    ensures Inv(OpenNext(s, c))
  {
    hide Standing, Listed, Sealed;
    var t := Contact(s, c, 0, Of(s, c).epoch);
    InvAt(s, c);
    ContactKeeps(s, c, 0, Of(s, c).epoch);
    InvAt(t, c);
    if !Refused(s, c, 0, Of(s, c).epoch) {
      LocalKeeps(t, OpenNext(s, c), c);
    }
  }

  lemma SendKeeps(s: State, c: Client, size: Option<nat>, alloc: Option<nat>)
    requires Inv(s) && Of(s, c).phase.Owning?
    ensures Inv(Next(s, Send(c, size, alloc)))
  {
    hide Standing, Listed, Sealed, Tracks, Sent;
    InvAt(s, c);
    if Tracks(s.stored, Of(s, c)) { SentTracks(s.stored, Of(s, c), size, alloc); }
    SentStamped(Of(s, c), size, alloc);
    LocalKeeps(s, Next(s, Send(c, size, alloc)), c);
  }

  lemma SentStamped(l: Local, size: Option<nat>, alloc: Option<nat>)
    requires l.since <= l.epoch && forall u :: u in l.updates ==> Stamped(l, u.epoch)
    ensures var m := Sent(l, size, alloc);
            && m == l.(mem := m.mem, updates := m.updates, doubt := m.doubt)
            && forall u :: u in m.updates ==> Stamped(m, u.epoch)
  {
  }

  lemma FailKeeps(s: State, c: Client)
    requires Inv(s) && Of(s, c).updates != []
    ensures Inv(Next(s, Fail(c)))
  {
    hide Standing, Listed, Sealed, Tracks;
    InvAt(s, c);
    if Tracks(s.stored, Of(s, c)) { FailingTracks(s.stored, Of(s, c)); }
    LocalKeeps(s, Next(s, Fail(c)), c);
  }

  lemma TransmitKeeps(s: State, c: Client, k: nat)
    requires Inv(s) && Of(s, c).phase.Owning?
    ensures Inv(Next(s, Transmit(c, k)))
  {
    hide Standing, Listed, Sealed;
    InvAt(s, c);
    LocalKeeps(s, Next(s, Transmit(c, k)), c);
  }

  /** An update that the first object accepts comes from the client that the owner attribute names. */
  lemma AcceptedIsOwner(s: State, c: Client)
    requires Inv(s) && IsOwner(Of(s, c)) && !Listed(s.mon, c, Osd(s, 0))
    ensures s.excl == Some(c)
  {
    InvAt(s, c);
    if Sealed(s.mon, c, Osd(s, 0)) { SealedLater(s.mon, c, Osd(s, 0), Osd(s, 0)); }
  }

  lemma StoreKeeps(s: State, c: Client, us: seq<Update>, value: Xattrs)
    requires Inv(s) && Of(s, c).phase.Owning? && s.excl == Some(c) && us == Of(s, c).updates && us != []
    requires value == Applied(s.stored, us[0])
    ensures Inv(SetLocal(s, c, Of(s, c).(updates := us[1..])).(stored := value))
  {
    hide Listed, Sealed, Tracks;
    var t := SetLocal(s, c, Of(s, c).(updates := us[1..])).(stored := value);
    if Tracks(s.stored, Of(s, c)) { LandingTracks(s.stored, Of(s, c)); }
    forall d ensures OwnerOk(t, d) && RecoveryOk(t, d) && EpochOk(t, d) && AttributesOk(t, d) { InvAt(s, d); }
    forall a, b ensures RivalOk(t, a, b) { assert RivalOk(s, a, b); }
    forall k ensures Osd(t, k) <= |t.mon| { assert Osd(s, k) <= |s.mon|; }
  }

  lemma DeliverKeeps(s: State, c: Client)
    requires Inv(s) && Undropped(s) && Of(s, c).updates != []
    ensures Inv(DeliverNext(s, c))
  {
    hide Standing, Listed, Sealed, Kept;
    var u := Of(s, c).updates[0];
    var t := Contact(s, c, 0, u.epoch);
    InvAt(s, c);
    assert u in Of(s, c).updates;
    ContactKeeps(s, c, 0, u.epoch);
    InvAt(t, c);
    if Refused(s, c, 0, u.epoch) {
      ListedSealed(s.mon, c, Osd(s, 0), Seen(s, 0, u.epoch));
      LocalKeeps(t, DeliverNext(s, c), c);
    } else {
      AcceptedIsOwner(t, c);
      StoreKeeps(t, c, Of(s, c).updates, Applied(s.stored, u));
    }
  }

  lemma ArriveKeeps(s: State, c: Client, i: nat)
    requires Inv(s) && i < |Of(s, c).transfers|
    ensures Inv(ArriveNext(s, c, i))
  {
    hide Standing, Listed, Sealed;
    var x := Of(s, c).transfers[i];
    var t := Contact(s, c, x.stripe, x.epoch);
    InvAt(s, c);
    assert x in Of(s, c).transfers;
    ContactKeeps(s, c, x.stripe, x.epoch);
    InvAt(t, c);
    LocalKeeps(t, ArriveNext(s, c, i), c);
  }

  /** Unlocking leaves behind exactly what the owner had in memory. */
  lemma UnlockKeeps(s: State, c: Client)
    requires Inv(s) && IsOwner(Of(s, c)) && Of(s, c).updates == [] && Of(s, c).transfers == []
    ensures Inv(UnlockNext(s, c))
  {
    hide Listed, Sealed;
    var t := Contact(s, c, 0, Of(s, c).epoch);
    InvAt(s, c);
    ContactKeeps(s, c, 0, Of(s, c).epoch);
    InvAt(t, c);
    if !(Refused(s, c, 0, Of(s, c).epoch) || s.excl != Some(c) || s.holder != Some(c)) {
      var r := UnlockNext(s, c);
      if Sealed(t.mon, c, Osd(t, 0)) { SealedLater(t.mon, c, Osd(t, 0), Osd(t, 0)); }
      forall d ensures OwnerOk(r, d) && RecoveryOk(r, d) && EpochOk(r, d) && AttributesOk(r, d) {
        InvAt(t, d);
        RivalAt(t, c, d);
      }
      forall a, b ensures RivalOk(r, a, b) { }
      forall k ensures Osd(r, k) <= |r.mon| { assert Osd(t, k) <= |t.mon|; }
    }
  }

  /** The owner attribute is set by a client that still holds the lock. */
  predicate Held(s: State, e: Event) {
    e.SetOwner? ==> s.holder == Some(e.c)
  }

  /** No wait for a map fails. */
  predicate Smooth(e: Event) {
    !e.MissMap?
  }

  lemma ForgiveNoOwner(s: State, c: Client)
    requires Osd(s, 0) <= |s.mon| && Undropped(Next(s, Forgive(c)))
    ensures !IsOwner(Of(s, c))
  {
    var t := Next(s, Forgive(c));
    assert Of(t, c) == Of(s, c);
    assert !Kept(t.mon, c, Osd(t, 0), |t.mon|) by { assert t.mon[|s.mon|] == Drop(c); }
  }

  /** Every step of every client and of the cluster keeps the invariant, if the owner attribute is set by
      who holds the lock, no wait for a map fails, and no owner's entry on the blocklist expires. */
  lemma StepKeeps(s: State, e: Event)
    requires Inv(s) && Enabled(s, e) && Held(s, e) && Smooth(e) && Undropped(s) && Undropped(Next(s, e))
    ensures Inv(Next(s, e))
  {
    hide Standing, Listed, Sealed, Kept, Undropped;
    match e {
      case Lock(c) => BackKeeps(s, c, Trying);
      case FastPath(c) => FastPathKeeps(s, c);
      case TakeLock(c) => TakeLockKeeps(s, c);
      case ReadOwner(c) => ReadOwnerKeeps(s, c);
      case Blocklist(c) => BlocklistKeeps(s, c);
      case FetchMap(c) => FetchMapKeeps(s, c);
      case SetOwner(c) => SetOwnerKeeps(s, c);
      case GiveUp(c) => BackKeeps(s, c, Idle);
      case Open(c) => OpenKeeps(s, c);
      case Send(c, size, alloc) => SendKeeps(s, c, size, alloc);
      case Fail(c) => FailKeeps(s, c);
      case Deliver(c) => DeliverKeeps(s, c);
      case Transmit(c, k) => TransmitKeeps(s, c, k);
      case Arrive(c, i) => ArriveKeeps(s, c, i);
      case Unlock(c) => UnlockKeeps(s, c);
      case Expire => ReleaseKeeps(s);
      case Ban(c) => ChangeKeeps(s, Add(c));
      case Forgive(c) =>
        InvOsd(s, 0);
        ForgiveNoOwner(s, c);
        ChangeKeeps(s, Drop(c));
      case Learn(c) => LearnKeeps(s, c, |s.mon|);
      case Gossip(k) => AtLeastKeeps(s, k, |s.mon|);
    }
  }

  lemma InitialInv(s: State)
    requires Initial(s)
    ensures Inv(s) && Undropped(s)
  {
  }

  /** Runs in which recoveries set the owner while they hold the lock. */
  predicate HeldRun(s: State, es: seq<Event>)
    decreases |es|
  {
    es == [] || (Enabled(s, es[0]) && Held(s, es[0]) && HeldRun(Next(s, es[0]), es[1..]))
  }

  /** Runs in which, besides, no wait for a map fails and no owner's entry on the blocklist expires. */
  ghost predicate GuardedRun(s: State, es: seq<Event>)
    decreases |es|
  {
    && Undropped(s)
    && (es == [] || (Enabled(s, es[0]) && Held(s, es[0]) && Smooth(es[0]) && GuardedRun(Next(s, es[0]), es[1..])))
  }

  lemma GuardedNow(s: State, es: seq<Event>)
    requires GuardedRun(s, es)
    ensures Undropped(s)
  {
  }

  lemma {:induction false} RunKeeps(s: State, es: seq<Event>)
    requires Inv(s) && GuardedRun(s, es) && Run(s, es).Some?
    ensures Inv(Run(s, es).value)
    decreases |es|
  {
    hide Standing, Enabled, Next, Undropped;
    if es != [] {
      GuardedNow(Next(s, es[0]), es[1..]);
      StepKeeps(s, es[0]);
      RunKeeps(Next(s, es[0]), es[1..]);
    }
  }

  ghost predicate Guarded(s: State) {
    exists i, es :: Initial(i) && GuardedRun(i, es) && Run(i, es) == Some(s)
  }

  lemma GuardedInv(s: State)
    requires Guarded(s)
    ensures Inv(s)
  {
    hide Standing;
    var i, es :| Initial(i) && GuardedRun(i, es) && Run(i, es) == Some(s);
    InitialInv(i);
    RunKeeps(i, es);
  }

  // ---- mutual exclusion, whatever fails and expires ----

  /** An owner is named by the owner attribute or has been blocklisted, and who is named is an owner. */
  predicate Named(s: State, c: Client) {
    && (IsOwner(Of(s, c)) ==> s.excl == Some(c) || Fenced(s, c))
    && (s.excl == Some(c) ==> IsOwner(Of(s, c)))
  }

  ghost predicate AllNamed(s: State) {
    forall c :: Named(s, c)
  }

  /** What an owner, or a recovering client that holds the lock, can rely on in all runs. */
  predicate Claim(s: State, c: Client) {
    var l := Of(s, c);
    && Named(s, c)
    && (s.holder == Some(c) ==>
          && (l.phase.Blocklisting? ==> s.excl == Some(l.phase.dead))
          && (l.phase.WaitingMap? || l.phase.SettingOwner? ==> s.excl.None? || Fenced(s, s.excl.value)))
  }

  ghost predicate Claims(s: State) {
    forall c :: Claim(s, c)
  }

  /** Nothing but who has learned or sent what has changed, and the blocklist may have grown. */
  ghost predicate Passive(s: State, t: State, c: Client) {
    && t.excl == s.excl && (t.holder == s.holder || t.holder.None?) && s.mon <= t.mon
    && forall d :: d != c ==> Of(t, d).phase == Of(s, d).phase
  }

  lemma PassiveKeeps(s: State, t: State, c: Client)
    requires Claims(s) && Passive(s, t, c) && Claim(t, c)
    ensures Claims(t)
  {
    forall d ensures Claim(t, d) {
      assert Claim(s, d);
      assert Fenced(s, d) ==> Fenced(t, d);
      if s.excl.Some? { assert Fenced(s, s.excl.value) ==> Fenced(t, s.excl.value); }
    }
  }

  lemma ContactPassive(s: State, c: Client, k: nat, e: nat)
    ensures var t := Contact(s, c, k, e);
            && Passive(s, t, c) && Of(t, c).phase == Of(s, c).phase && Of(t, c).updates == Of(s, c).updates
            && t.holder == s.holder && t.mon == s.mon && forall d :: Of(t, d).phase == Of(s, d).phase
  {
  }

  lemma ContactIs(s: State, c: Client, k: nat, e: nat)
    ensures var t := Contact(s, c, k, e);
            && t == s.(osd := t.osd, local := t.local) && Of(t, c) == Of(s, c).(epoch := Of(t, c).epoch)
            && (forall d :: d != c ==> Of(t, d) == Of(s, d)) && (forall j :: j != k ==> Osd(t, j) == Osd(s, j))
  {
  }

  /** The owner changes hands: everybody else who owns the file has been on the blocklist. */
  lemma OwnClaims(s: State, t: State, c: Client)
    requires Claims(s) && t.excl == Some(c) && t.holder == Some(c) && t.mon == s.mon && IsOwner(Of(t, c))
    requires s.excl.None? || Fenced(s, s.excl.value)
    requires forall d :: d != c ==> Of(t, d).phase == Of(s, d).phase
    ensures Claims(t)
  {
    forall d ensures Claim(t, d) { assert Claim(s, d); }
  }

  /** The lock changes hands. */
  lemma TakeClaims(s: State, t: State, c: Client)
    requires Claims(s) && t.excl == s.excl && t.holder == Some(c) && t.mon == s.mon
    requires Of(t, c).phase.ReadingOwner? && !IsOwner(Of(s, c))
    requires forall d :: d != c ==> Of(t, d).phase == Of(s, d).phase
    ensures Claims(t)
  {
    forall d ensures Claim(t, d) { assert Claim(s, d); }
  }

  lemma RequestClaims(s: State, e: Event)
    requires Claims(s) && Enabled(s, e) && (e.FastPath? || e.TakeLock? || e.ReadOwner?)
    ensures Claims(Next(s, e))
  {
    hide Listed, Claims, Contact;
    var c := e.c;
    var t, r := Contact(s, c, 0, Of(s, c).epoch), Next(s, e);
    ContactPassive(s, c, 0, Of(s, c).epoch);
    ClaimAt(s, c);
    if r.excl != s.excl {
      OwnClaims(s, r, c);
    } else if r.holder != s.holder {
      TakeClaims(s, r, c);
    } else {
      PassiveKeeps(s, r, c);
    }
  }

  lemma OwnerClaims(s: State, e: Event)
    requires Claims(s) && Enabled(s, e) && Held(s, e) && (e.SetOwner? || e.Open? || e.Unlock?)
    ensures Claims(Next(s, e))
  {
    hide Listed, Claims, Contact;
    var c := e.c;
    var t, r := Contact(s, c, 0, Of(s, c).epoch), Next(s, e);
    ContactPassive(s, c, 0, Of(s, c).epoch);
    ClaimAt(s, c);
    if e.SetOwner? && r.excl == Some(c) && IsOwner(Of(r, c)) {
      OwnClaims(s, r, c);
    } else if e.Unlock? && r.excl != s.excl {
      UnlockClaims(s, r, c);
    } else {
      PassiveKeeps(s, r, c);
    }
  }

  lemma ClaimAt(s: State, c: Client)
    requires Claims(s)
    ensures Claim(s, c)
  {
  }

  lemma UnlockClaims(s: State, t: State, c: Client)
    requires Claims(s) && s.excl == Some(c) && t.excl.None? && t.holder.None? && t.mon == s.mon && !IsOwner(Of(t, c))
    requires forall d :: d != c ==> Of(t, d).phase == Of(s, d).phase
    ensures Claims(t)
  {
    forall d ensures Claim(t, d) { assert Claim(s, d); }
  }

  lemma TrafficClaims(s: State, e: Event)
    requires Claims(s) && Enabled(s, e) && (e.Send? || e.Deliver? || e.Fail? || e.Transmit? || e.Arrive?)
    ensures Claims(Next(s, e))
  {
    hide Listed, Claims, Contact, Sent, Failing;
    SentPhase(s, e);
    ClaimAt(s, e.c);
    if e.Deliver? { ContactPassive(s, e.c, 0, Of(s, e.c).updates[0].epoch); }
    if e.Arrive? { ContactPassive(s, e.c, Of(s, e.c).transfers[e.i].stripe, Of(s, e.c).transfers[e.i].epoch); }
    PassiveKeeps(s, Next(s, e), e.c);
  }

  lemma ClusterClaims(s: State, e: Event)
    requires Claims(s) && Enabled(s, e)
    requires e.Lock? || e.GiveUp? || e.Blocklist? || e.FetchMap? || e.MissMap? || e.Expire? || e.Ban? || e.Forgive? || e.Learn? || e.Gossip?
    ensures Claims(Next(s, e))
  {
    hide Listed, Claims;
    var c, t := if e.Expire? || e.Gossip? then 0 else e.c, Next(s, e);
    ClaimAt(s, c);
    if e.Blocklist? { assert t.mon[|s.mon|] == Add(Of(s, c).phase.dead); }
    assert forall d :: Fenced(s, d) ==> Fenced(t, d);
    PassiveKeeps(s, t, c);
  }

  /** Every step keeps the claims, however leases and entries expire and whatever fails, if the owner
      attribute is set by who holds the lock. */
  lemma StepClaims(s: State, e: Event)
    requires Claims(s) && Enabled(s, e) && Held(s, e)
    ensures Claims(Next(s, e))
  {
    hide Claims, Next, Enabled;
    if e.FastPath? || e.TakeLock? || e.ReadOwner? {
      RequestClaims(s, e);
    } else if e.SetOwner? || e.Open? || e.Unlock? {
      OwnerClaims(s, e);
    } else if e.Send? || e.Deliver? || e.Fail? || e.Transmit? || e.Arrive? {
      TrafficClaims(s, e);
    } else {
      ClusterClaims(s, e);
    }
  }

  lemma InitialClaims(s: State)
    requires Initial(s)
    ensures Claims(s)
  {
  }

  // ---- what follows as long as no owner's entry expires and no update fails ----

  /** Fencing reaches the data: once the owner's operations have touched an object, the object's OSD
      refuses everything that any other client still has under way to it. */
  lemma StaleWritesRefused(s: State, c: Client, d: Client, i: nat)
    requires Guarded(s) && s.excl == Some(c) && IsOwner(Of(s, c)) && d != c
    requires i < |Of(s, d).transfers| && Of(s, d).transfers[i].stripe in Of(s, c).touched
    ensures Refused(s, d, Of(s, d).transfers[i].stripe, Of(s, d).transfers[i].epoch)
  {
    hide Standing, Listed, Sealed;
    GuardedInv(s);
    InvAt(s, c);
    InvAt(s, d);
    RivalAt(s, c, d);
    var x := Of(s, d).transfers[i];
    SealedLater(s.mon, d, Of(s, c).since, Seen(s, x.stripe, x.epoch));
  }

  /** Whose entry is not named any more has its data refused by every OSD that has come as far as that of the
      first object; until then the data of an old owner may still land. */
  lemma LateDataRefused(s: State, d: Client, i: nat)
    requires Guarded(s) && s.excl != Some(d) && i < |Of(s, d).transfers|
    requires Osd(s, 0) <= Seen(s, Of(s, d).transfers[i].stripe, Of(s, d).transfers[i].epoch)
    ensures Refused(s, d, Of(s, d).transfers[i].stripe, Of(s, d).transfers[i].epoch)
  {
    hide Standing, Listed, Sealed;
    GuardedInv(s);
    InvAt(s, d);
    var x := Of(s, d).transfers[i];
    SealedLater(s.mon, d, Osd(s, 0), Seen(s, x.stripe, x.epoch));
  }

  /** The blocklist has changed for `d` once, when it was put there in epoch `j`. */
  predicate Once(mon: seq<Change>, d: Client, j: nat) {
    j < |mon| && mon[j] == Add(d) && forall i :: 0 <= i < |mon| && i != j ==> mon[i] != Add(d) && mon[i] != Drop(d)
  }

  /** For who was blocklisted once, a request is refused exactly if the OSD knows, or learns from the request
      itself, the map that says so. */
  lemma RefusedExactly(s: State, d: Client, j: nat, k: nat, e: nat)
    requires Once(s.mon, d, j)
    ensures Refused(s, d, k, e) <==> j < Seen(s, k, e)
  {
    if j < Seen(s, k, e) { assert Kept(s.mon, d, j, Seen(s, k, e)); }
  }

  /** The same for the attributes, from the moment the owner is set. */
  lemma StaleUpdatesRefused(s: State, d: Client, u: Update)
    requires Guarded(s) && s.excl != Some(d) && u in Of(s, d).updates
    ensures Refused(s, d, 0, u.epoch)
  {
    hide Standing, Listed, Sealed;
    GuardedInv(s);
    InvAt(s, d);
    SealedLater(s.mon, d, Osd(s, 0), Seen(s, 0, u.epoch));
  }

  /** Hand-off: while nobody owns the file, nothing that is under way can still change its attributes, and a
      client that was never blocklisted has nothing under way at all.  The version is the one that the last
      owner had in memory exactly if its last update did not fail, and so is what an update carries if the last
      one that carried it did not fail. */
  lemma CleanHandOff(s: State, c: Client)
    requires Guarded(s) && s.excl.None?
    ensures s.stored.version == s.last.version <==> !s.unsure.version
    ensures (!s.unsure.size ==> s.stored.size == s.last.size) && (!s.unsure.alloc ==> s.stored.alloc == s.last.alloc)
    ensures forall u :: u in Of(s, c).updates ==> Refused(s, c, 0, u.epoch)
    ensures !Fenced(s, c) ==> Of(s, c).updates == [] && Of(s, c).transfers == []
  {
    hide Standing, Listed;
    GuardedInv(s);
    InvAt(s, c);
    forall u | u in Of(s, c).updates ensures Refused(s, c, 0, u.epoch) { StaleUpdatesRefused(s, c, u); }
  }

  /** Nobody has reason to doubt its updates. */
  ghost predicate Sure(s: State) {
    s.unsure == SURE && forall c :: Of(s, c).doubt == SURE
  }

  lemma {:induction false} RunSure(s: State, es: seq<Event>)
    requires Sure(s) && Run(s, es).Some? && forall e :: e in es ==> !e.Fail?
    ensures Sure(Run(s, es).value)
    decreases |es|
  {
    if es != [] {
      assert es[0] in es && !es[0].Fail?;
      StepSure(s, es[0]);
      RunSure(Next(s, es[0]), es[1..]);
    }
  }

  lemma SureElsewhere(s: State, t: State, c: Client)
    requires Sure(s) && t.unsure == SURE && Of(t, c).doubt == SURE && forall d :: d != c ==> Of(t, d).doubt == Of(s, d).doubt
    ensures Sure(t)
  {
  }

  lemma RequestSure(s: State, e: Event)
    requires e.FastPath? || e.TakeLock? || e.ReadOwner? || e.SetOwner? || e.Open? || e.Unlock?
    requires Sure(s) && Enabled(s, e)
    ensures Sure(Next(s, e))
  {
    hide Refused, Contact, Sure;
    SureAt(s, e.c);
    ContactIs(s, e.c, 0, Of(s, e.c).epoch);
    SureElsewhere(s, Next(s, e), e.c);
  }

  lemma TrafficSure(s: State, e: Event)
    requires (e.Send? || e.Deliver? || e.Transmit? || e.Arrive?) && Sure(s) && Enabled(s, e)
    ensures Sure(Next(s, e))
  {
    hide Refused, Contact, Sure, Applied;
    SureAt(s, e.c);
    if e.Deliver? { ContactIs(s, e.c, 0, Of(s, e.c).updates[0].epoch); }
    if e.Arrive? { ContactIs(s, e.c, Of(s, e.c).transfers[e.i].stripe, Of(s, e.c).transfers[e.i].epoch); }
    SureElsewhere(s, Next(s, e), e.c);
  }

  lemma StepSure(s: State, e: Event)
    requires Sure(s) && Enabled(s, e) && !e.Fail?
    ensures Sure(Next(s, e))
  {
    hide Sure;
    if e.FastPath? || e.TakeLock? || e.ReadOwner? || e.SetOwner? || e.Open? || e.Unlock? {
      hide Next, Enabled;
      RequestSure(s, e);
    } else if e.Send? || e.Deliver? || e.Transmit? || e.Arrive? {
      hide Next, Enabled;
      TrafficSure(s, e);
    } else {
      var c := if e.Expire? || e.Gossip? then 0 else e.c;
      SureAt(s, c);
      SureElsewhere(s, Next(s, e), c);
    }
  }

  lemma SureAt(s: State, c: Client)
    requires Sure(s)
    ensures s.unsure == SURE && Of(s, c).doubt == SURE
  {
  }

  /** If no update ever fails, whoever finds the file unowned finds what the last owner had in memory. */
  lemma SmoothHandOff(i: State, es: seq<Event>, s: State)
    requires Initial(i) && GuardedRun(i, es) && Run(i, es) == Some(s) && (forall e :: e in es ==> !e.Fail?)
    requires s.excl.None?
    ensures s.stored == s.last
  {
    hide Standing, Run, GuardedRun;
    RunSure(i, es);
    CleanHandOff(s, 0);
  }

  lemma StoresOnDelivery(s: State, e: Event)
    requires Enabled(s, e) && Next(s, e).stored != s.stored
    ensures e.Deliver? && !Refused(s, e.c, 0, Of(s, e.c).updates[0].epoch)
  {
    hide Refused;
  }

  /** Whatever is stored about the file changes by an update of the client that the owner attribute names, and
      by nothing else. */
  lemma OnlyOwnerStores(s: State, e: Event)
    requires Guarded(s) && Enabled(s, e) && Next(s, e).stored != s.stored
    ensures e.Deliver? && s.excl == Some(e.c) && IsOwner(Of(s, e.c))
  {
    hide Standing, Refused, Contact, Applied;
    GuardedInv(s);
    StoresOnDelivery(s, e);
    if e.Deliver? {
      InvAt(s, e.c);
      if s.excl != Some(e.c) { StaleUpdatesRefused(s, e.c, Of(s, e.c).updates[0]); }
    }
  }

  lemma FastPathResumes(s: State, c: Client)
    requires Guarded(s) && Of(s, c).phase == Opening(true) && s.excl == Some(c)
    requires !Refused(s, c, 0, Of(s, c).epoch)
    ensures var l := Of(OpenNext(s, c), c);
            && l.phase.Owning? && (l.mem.version == s.last.version <==> !s.unsure.version)
            && (s.unsure == SURE ==> l.mem == s.last)
  {
    hide Standing;
    GuardedInv(s);
    InvAt(s, c);
  }

  // ---- the exact condition for mutual exclusion ----

  /** The owner attribute is not taken from an owner that was never blocklisted. */
  predicate Uncontested(s: State, e: Event) {
    e.SetOwner? && !Refused(s, e.c, 0, Of(s, e.c).epoch) ==> s.excl.None? || Fenced(s, s.excl.value)
  }

  lemma NamedElsewhere(s: State, t: State, c: Client)
    requires AllNamed(s) && s.mon <= t.mon && Named(t, c)
    requires t.excl == s.excl || t.excl == Some(c) || t.excl.None?
    requires t.excl != s.excl ==> s.excl.None? || Fenced(s, s.excl.value) || s.excl == Some(c)
    requires forall d :: d != c ==> Of(t, d).phase == Of(s, d).phase
    ensures AllNamed(t)
  {
    forall d ensures Named(t, d) {
      assert Named(s, d);
      assert Fenced(s, d) ==> Fenced(t, d);
    }
  }

  /** One step: every owner stays named exactly if the attribute is not taken from one that was never
      blocklisted. */
  lemma StepNamedExact(s: State, e: Event)
    requires AllNamed(s) && Enabled(s, e)
    ensures AllNamed(Next(s, e)) <==> Uncontested(s, e)
  {
    hide Listed, AllNamed;
    var c, t := if e.Expire? || e.Gossip? then 0 else e.c, Next(s, e);
    NamedAt(s, c);
    if Uncontested(s, e) {
      StepNames(s, e, c);
      NamedElsewhere(s, t, c);
    } else {
      NamedAt(s, s.excl.value);
      assert !Named(t, s.excl.value);
      NotAllNamed(t, s.excl.value);
    }
  }

  lemma NamedAt(s: State, c: Client)
    requires AllNamed(s)
    ensures Named(s, c)
  {
  }

  lemma NotAllNamed(s: State, c: Client)
    requires !Named(s, c)
    ensures !AllNamed(s)
  {
  }

  /** What a step does to who is named, seen from the client that takes it. */
  ghost predicate Names(s: State, t: State, c: Client) {
    && Named(t, c) && s.mon <= t.mon && (forall d :: d != c ==> Of(t, d).phase == Of(s, d).phase)
    && (t.excl == s.excl || t.excl == Some(c) || t.excl.None?)
  }

  lemma RequestNames(s: State, e: Event)
    requires e.FastPath? || e.TakeLock? || e.ReadOwner? || e.SetOwner? || e.Open? || e.Unlock?
    requires Named(s, e.c) && Enabled(s, e)
    ensures var t := Next(s, e);
            && Names(s, t, e.c)
            && (t.excl != s.excl && !e.SetOwner? ==> s.excl.None? || s.excl == Some(e.c))
            && (t.excl != s.excl && e.SetOwner? ==> !Refused(s, e.c, 0, Of(s, e.c).epoch))
  {
    hide Listed, Contact;
    ContactPassive(s, e.c, 0, Of(s, e.c).epoch);
  }

  lemma TrafficNames(s: State, e: Event)
    requires (e.Send? || e.Deliver? || e.Fail? || e.Transmit? || e.Arrive?) && Named(s, e.c) && Enabled(s, e)
    ensures Names(s, Next(s, e), e.c) && Next(s, e).excl == s.excl
  {
    hide Listed, Contact, Sent, Failing;
    if e.Deliver? { ContactPassive(s, e.c, 0, Of(s, e.c).updates[0].epoch); }
    if e.Arrive? { ContactPassive(s, e.c, Of(s, e.c).transfers[e.i].stripe, Of(s, e.c).transfers[e.i].epoch); }
    SentPhase(s, e);
  }

  lemma SentPhase(s: State, e: Event)
    requires Enabled(s, e)
    ensures e.Send? ==> Sent(Of(s, e.c), e.size, e.alloc).phase == Of(s, e.c).phase
    ensures e.Fail? ==> Failing(Of(s, e.c)).phase == Of(s, e.c).phase
  {
  }

  lemma StepNames(s: State, e: Event, c: Client)
    requires Named(s, c) && Enabled(s, e) && c == if e.Expire? || e.Gossip? then 0 else e.c
    ensures var t := Next(s, e);
            && Names(s, t, c)
            && (t.excl != s.excl && !e.SetOwner? ==> s.excl.None? || s.excl == Some(c))
            && (t.excl != s.excl && e.SetOwner? ==> !Refused(s, c, 0, Of(s, c).epoch))
  {
    if e.FastPath? || e.TakeLock? || e.ReadOwner? || e.SetOwner? || e.Open? || e.Unlock? {
      hide Next, Enabled, Listed;
      RequestNames(s, e);
    } else if e.Send? || e.Deliver? || e.Fail? || e.Transmit? || e.Arrive? {
      hide Next, Enabled, Listed;
      TrafficNames(s, e);
    } else {
      var t := Next(s, e);
      assert Fenced(s, c) ==> Fenced(t, c);
    }
  }

  ghost predicate NamedRun(s: State, es: seq<Event>)
    decreases |es|
  {
    AllNamed(s) && (es == [] || (Enabled(s, es[0]) && NamedRun(Next(s, es[0]), es[1..])))
  }

  predicate UncontestedRun(s: State, es: seq<Event>)
    decreases |es|
  {
    es == [] || (Enabled(s, es[0]) && Uncontested(s, es[0]) && UncontestedRun(Next(s, es[0]), es[1..]))
  }

  /** Whole runs: every owner that was never blocklisted is named by the owner attribute at all times, exactly
      if no step takes the attribute from such an owner. */
  lemma {:induction false} RunNamedExact(s: State, es: seq<Event>)
    requires AllNamed(s)
    ensures NamedRun(s, es) <==> UncontestedRun(s, es)
    decreases |es|
  {
    hide AllNamed, Enabled, Next, Uncontested;
    if es != [] && Enabled(s, es[0]) {
      StepNamedExact(s, es[0]);
      if Uncontested(s, es[0]) { RunNamedExact(Next(s, es[0]), es[1..]); }
    }
  }

  /** Reached by a run of that kind. */
  ghost predicate Reachable(s: State) {
    exists i, es :: Initial(i) && UncontestedRun(i, es) && Run(i, es) == Some(s)
  }

  lemma {:induction false} NamedEnd(s: State, es: seq<Event>)
    requires NamedRun(s, es) && Run(s, es).Some?
    ensures AllNamed(Run(s, es).value)
    decreases |es|
  {
    hide AllNamed, Enabled, Next;
    if es != [] { NamedEnd(Next(s, es[0]), es[1..]); }
  }

  /** Mutual exclusion: of all clients that were never blocklisted, at most one owns the file. */
  lemma MutualExclusion(s: State, c: Client, d: Client)
    requires Reachable(s)
    requires IsOwner(Of(s, c)) && !Fenced(s, c) && IsOwner(Of(s, d)) && !Fenced(s, d)
    ensures c == d && s.excl == Some(c)
  {
    hide AllNamed, Run, UncontestedRun, NamedRun;
    var i, es :| Initial(i) && UncontestedRun(i, es) && Run(i, es) == Some(s);
    InitialNamed(i);
    RunNamedExact(i, es);
    NamedEnd(i, es);
    NamedAt(s, c);
    NamedAt(s, d);
  }

  lemma InitialNamed(s: State)
    requires Initial(s)
    ensures AllNamed(s)
  {
  }

  /** What the lease is for: a client that still holds the lock takes the attribute from nobody but an owner
      that has been blocklisted. */
  lemma {:induction false} HeldIsUncontested(s: State, es: seq<Event>)
    requires Claims(s) && HeldRun(s, es)
    ensures UncontestedRun(s, es)
    decreases |es|
  {
    hide Claims, Next, Listed;
    if es != [] {
      if es[0].SetOwner? { ClaimAt(s, es[0].c); }
      StepClaims(s, es[0]);
      HeldIsUncontested(Next(s, es[0]), es[1..]);
    }
  }

  /** The step that decides: a recovering client that was never blocklisted sets the owner, and there is still at
      most one owner that was never blocklisted, exactly if the attribute did not name another one. */
  lemma SetOwnerExact(s: State, c: Client)
    requires AllNamed(s) && Of(s, c).phase.SettingOwner? && !Fenced(s, c)
    ensures (forall a, b :: !TwoOwners(Next(s, SetOwner(c)), a, b)) <==> s.excl.None? || Fenced(s, s.excl.value)
  {
    hide Listed, AllNamed;
    var t := Next(s, SetOwner(c));
    NotListed(s, c, 0, Of(s, c).epoch);
    StepNamedExact(s, SetOwner(c));
    if AllNamed(t) {
      forall a, b ensures !TwoOwners(t, a, b) {
        NamedAt(t, a);
        NamedAt(t, b);
      }
    } else {
      NamedAt(s, s.excl.value);
      assert TwoOwners(t, c, s.excl.value);
    }
  }

  // ---- runs that show what each condition is for ----

  /** A state in which the mutual exclusion is broken. */
  predicate TwoOwners(s: State, c: Client, d: Client) {
    c != d && IsOwner(Of(s, c)) && !Fenced(s, c) && IsOwner(Of(s, d)) && !Fenced(s, d)
  }

  lemma {:induction false} RunConcat(s: State, es: seq<Event>, fs: seq<Event>)
    requires Run(s, es).Some?
    ensures Run(s, es + fs) == Run(Run(s, es).value, fs)
    decreases |es|
  {
    hide Enabled, Next;
    if es == [] {
      assert es + fs == fs;
    } else {
      assert (es + fs)[1..] == es[1..] + fs;
      RunConcat(Next(s, es[0]), es[1..], fs);
    }
  }

  lemma RunOne(s: State, e: Event)
    requires Enabled(s, e)
    ensures Run(s, [e]) == Some(Next(s, e))
  {
    assert [e][1..] == [];
  }

  lemma RunSnoc(s: State, es: seq<Event>, t: State, e: Event)
    requires Run(s, es) == Some(t) && Enabled(t, e)
    ensures Run(s, es + [e]) == Some(Next(t, e))
  {
    hide Enabled, Next;
    RunConcat(s, es, [e]);
    RunOne(t, e);
  }

  /** A client that nobody has ever blocklisted is not refused. */
  lemma NotListed(s: State, c: Client, k: nat, e: nat)
    requires !Fenced(s, c)
    ensures !Refused(s, c, k, e)
  {
  }

  /** Only what client `c` knows, and the map that the OSD of the first object has, may differ. */
  ghost predicate Elsewhere(s: State, t: State, c: Client) {
    && t.stored == s.stored && t.excl == s.excl
    && (forall d :: d != c ==> Of(t, d) == Of(s, d)) && forall k :: k != 0 ==> Osd(t, k) == Osd(s, k)
  }

  lemma RecoveryStep(s: State, c: Client, e: Event)
    requires Enabled(s, e) && (e == FastPath(c) || e == TakeLock(c) || e == ReadOwner(c)) && !Fenced(s, c)
    requires s.excl.Some? && s.excl.value != c && (e.ReadOwner? || s.holder.None?)
    ensures var t := Next(s, e);
            && Elsewhere(s, t, c) && t.mon == s.mon
            && t.holder == (if e.TakeLock? then Some(c) else s.holder)
            && Of(t, c).phase == (if e.FastPath? then TakingLock else if e.TakeLock? then ReadingOwner
                                  else Blocklisting(s.excl.value))
  {
    hide Listed, Contact;
    NotListed(s, c, 0, Of(s, c).epoch);
    ContactIs(s, c, 0, Of(s, c).epoch);
  }

  /** Client `c` takes the lock and finds the owner `a`. */
  lemma FindOwner(s: State, c: Client, a: Client) returns (es: seq<Event>, t: State)
    requires Of(s, c).phase.Trying? && s.holder.None? && s.excl == Some(a)
    requires c != a && !Fenced(s, c)
    ensures Run(s, es) == Some(t) && Calm(es) && Unexpired(es) && Elsewhere(s, t, c)
    ensures t.holder == Some(c) && t.mon == s.mon && Of(t, c).phase == Blocklisting(a)
  {
    hide Run, Listed, FastPathNext, TakeLockNext, ReadOwnerNext;
    RecoveryStep(s, c, FastPath(c));
    var u := Next(s, FastPath(c));
    RunOne(s, FastPath(c));
    RecoveryStep(u, c, TakeLock(c));
    RunSnoc(s, [FastPath(c)], u, TakeLock(c));
    u := Next(u, TakeLock(c));
    RecoveryStep(u, c, ReadOwner(c));
    RunSnoc(s, [FastPath(c)] + [TakeLock(c)], u, ReadOwner(c));
    es, t := [FastPath(c)] + [TakeLock(c)] + [ReadOwner(c)], Next(u, ReadOwner(c));
  }

  /** The first half of a recovery: client `c` takes the lock, finds the owner `a` and has it
      blocklisted. */
  lemma HalfRecovery(s: State, c: Client, a: Client) returns (es: seq<Event>, t: State)
    requires Of(s, c).phase.Trying? && s.holder.None? && s.excl == Some(a)
    requires c != a && !Fenced(s, c)
    ensures Run(s, es) == Some(t) && Calm(es) && Unexpired(es) && Elsewhere(s, t, c)
    ensures t.holder == Some(c) && t.mon == s.mon + [Add(a)]
    ensures Of(t, c).phase.SettingOwner? && Of(t, c).epoch == |t.mon|
  {
    hide Run, Listed;
    var u;
    es, u := FindOwner(s, c, a);
    RunSnoc(s, es, u, Blocklist(c));
    es, u := es + [Blocklist(c)], Next(u, Blocklist(c));
    RunSnoc(s, es, u, FetchMap(c));
    es, t := es + [FetchMap(c)], Next(u, FetchMap(c));
  }

  const START: State := State(None, None, [], map[], Xattrs(0, 0, 0), Xattrs(0, 0, 0), SURE, map[])

  /** Client 1 takes the file. */
  lemma Taken() returns (es: seq<Event>, t: State)
    ensures Initial(START) && Run(START, es) == Some(t) && Calm(es)
    ensures t.holder == Some(1) && t.excl == Some(1) && t.mon == [] && t.osd == map[0 := 0]
    ensures t.stored == t.last == Xattrs(0, 0, 0) && t.unsure == SURE
    ensures Of(t, 1) == NOBODY.(phase := Opening(true)) && forall d :: d != 1 ==> Of(t, d) == NOBODY
  {
    hide Run, Listed;
    t := Next(START, Lock(1));
    RunOne(START, Lock(1));
    es := [Lock(1)];
    NotListed(t, 1, 0, Of(t, 1).epoch);
    RunSnoc(START, es, t, FastPath(1));
    es, t := es + [FastPath(1)], Next(t, FastPath(1));
  }

  /** Client `c` calls lock() and gets half-way through a recovery. */
  lemma StartRecovery(s: State, c: Client, a: Client) returns (es: seq<Event>, t: State)
    requires Of(s, c) == NOBODY && s.holder.None? && s.excl == Some(a) && c != a && !Fenced(s, c)
    ensures Run(s, es) == Some(t) && Calm(es) && Unexpired(es) && Elsewhere(s, t, c)
    ensures t.holder == Some(c) && t.mon == s.mon + [Add(a)]
    ensures Of(t, c).phase.SettingOwner? && Of(t, c).epoch == |t.mon|
  {
    hide Run, FastPathNext, Listed;
    var u := Next(s, Lock(c));
    assert forall d :: d != c ==> Of(u, d) == Of(s, d);
    RunOne(s, Lock(c));
    var fs;
    fs, t := HalfRecovery(u, c, a);
    RunConcat(s, [Lock(c)], fs);
    es := [Lock(c)] + fs;
  }

  /** Two clients in the middle of a recovery both become owner. */
  lemma BothFinish(s: State, b: Client, c: Client) returns (es: seq<Event>, t: State)
    requires b != c && !Fenced(s, b) && !Fenced(s, c)
    requires Of(s, b).phase.SettingOwner? && Of(s, c).phase.SettingOwner?
    ensures Run(s, es) == Some(t) && TwoOwners(t, b, c)
  {
    hide Run, Listed;
    NotListed(s, c, 0, Of(s, c).epoch);
    t := Next(s, SetOwner(c));
    RunOne(s, SetOwner(c));
    assert Of(t, b) == Of(s, b);
    NotListed(t, b, 0, Of(t, b).epoch);
    RunSnoc(s, [SetOwner(c)], t, SetOwner(b));
    es, t := [SetOwner(c)] + [SetOwner(b)], Next(t, SetOwner(b));
  }

  /** Recovery sets the owner without looking again, so it has to hold the lock until then: client 1
      vanishes, client 2 recovers but its lease runs out before it is done, client 3 recovers, and
      then client 2 finishes.  Both own the file and neither was ever blocklisted. */
  lemma RecoveryNeedsItsLease() returns (es: seq<Event>, t: State)
    ensures Initial(START) && Run(START, es) == Some(t) && TwoOwners(t, 2, 3)
  {
    hide Run, FastPathNext, SetOwnerNext, TwoOwners, Listed;
    var s0, s1, s2, s3, s4, fs;
    es, s4 := Taken();
    s0 := Next(s4, Expire);
    RunSnoc(START, es, s4, Expire);
    es := es + [Expire];
    assert Of(s0, 2) == Of(s4, 2) && Of(s0, 3) == Of(s4, 3);
    fs, s1 := StartRecovery(s0, 2, 1);
    RunConcat(START, es, fs);
    es := es + fs;
    s2 := Next(s1, Expire);
    RunSnoc(START, es, s1, Expire);
    es := es + [Expire];
    assert Of(s2, 3) == Of(s1, 3) == Of(s0, 3) == NOBODY;
    fs, s3 := StartRecovery(s2, 3, 1);
    RunConcat(START, es, fs);
    es := es + fs;
    assert Of(s3, 2) == Of(s2, 2) == Of(s1, 2);
    fs, t := BothFinish(s3, 2, 3);
    RunConcat(START, es, fs);
    es := es + fs;
  }

  /** Client 1 takes and opens the file. */
  lemma Opened() returns (es: seq<Event>, t: State)
    ensures Run(START, es) == Some(t) && Calm(es)
    ensures t.holder == Some(1) && t.excl == Some(1) && t.mon == [] && t.osd == map[0 := 0]
    ensures t.stored == t.last == Xattrs(0, 0, 0) && t.unsure == SURE
    ensures Of(t, 1) == Local(Owning, 0, 0, Xattrs(0, 0, 0), SURE, [], [], {}) && forall d :: d != 1 ==> Of(t, d) == NOBODY
  {
    hide Run, FastPathNext, Listed;
    var u;
    es, u := Taken();
    NotListed(u, 1, 0, Of(u, 1).epoch);
    t := Next(u, Event.Open(1));
    RunSnoc(START, es, u, Event.Open(1));
    es := es + [Event.Open(1)];
    assert forall d :: d != 1 ==> Of(t, d) == Of(u, d);
  }

  /** ... and sends a new size. */
  lemma Busy(n: nat) returns (es: seq<Event>, t: State)
    ensures Run(START, es) == Some(t)
    ensures t.holder == Some(1) && t.excl == Some(1) && t.mon == [] && t.stored == t.last == Xattrs(0, 0, 0)
    ensures Of(t, 1) == Local(Owning, 0, 0, Xattrs(n, 0, 1), SURE, [Update(0, Some(n), None, 1)], [], {})
    ensures Osd(t, 0) == 0 && forall d :: d != 1 ==> Of(t, d) == NOBODY
  {
    hide Run, Listed;
    var u;
    es, u := Opened();
    t := Next(u, Send(1, Some(n), None));
    RunSnoc(START, es, u, Send(1, Some(n), None));
    es := es + [Send(1, Some(n), None)];
    assert forall d :: d != 1 ==> Of(t, d) == Of(u, d);
  }

  /** What the expiry of a blocklist entry can do: client 1 stalls with an update under way, client 2
      blocklists it and takes over, the entry expires, and the update of client 1 is accepted after all. */
  lemma ExpiryLetsIn(n: nat) returns (es: seq<Event>, s: State)
    ensures Initial(START) && Run(START, es) == Some(s) && s.excl == Some(2) && IsOwner(Of(s, 2))
    ensures Of(s, 1).updates == [Update(0, Some(n), None, 1)] && !Refused(s, 1, 0, 0) && Enabled(s, Deliver(1))
    ensures Next(s, Deliver(1)).stored == Xattrs(n, 0, 1) && Next(s, Deliver(1)).excl == Some(2)
  {
    hide Run, FastPathNext, SetOwnerNext, Listed;
    var t, u, fs;
    es, t := Busy(n);
    u := Next(t, Expire);
    RunSnoc(START, es, t, Expire);
    assert Of(u, 2) == Of(t, 2) && Of(u, 1) == Of(t, 1);
    fs, s := StartRecovery(u, 2, 1);
    RunConcat(START, es + [Expire], fs);
    es := es + [Expire] + fs;
    fs, s := TakeOver(s);
    RunConcat(START, es, fs);
    es := es + fs;
    Forgiven(s.mon, 1);
  }

  /** Client 2 sets the owner, the entry of client 1 expires, and the OSD of the first object hears of it. */
  lemma TakeOver(s: State) returns (es: seq<Event>, t: State)
    requires Of(s, 2).phase.SettingOwner? && s.mon == [Add(1)] && Of(s, 2).epoch == 1
    ensures Run(s, es) == Some(t) && t.excl == Some(2) && IsOwner(Of(t, 2)) && Of(t, 1) == Of(s, 1)
    ensures t.mon == [Add(1), Drop(1)] && Osd(t, 0) >= 2 && t.stored == s.stored
  {
    hide Run, Listed;
    NotListed(s, 2, 0, Of(s, 2).epoch);
    var u := Next(s, SetOwner(2));
    RunOne(s, SetOwner(2));
    es := [SetOwner(2)];
    RunSnoc(s, es, u, Forgive(1));
    es, u := es + [Forgive(1)], Next(u, Forgive(1));
    RunSnoc(s, es, u, Gossip(0));
    es, t := es + [Gossip(0)], Next(u, Gossip(0));
  }

  lemma Forgiven(mon: seq<Change>, c: Client)
    requires mon == [Add(c), Drop(c)]
    ensures forall e :: 2 <= e ==> !Listed(mon, c, e)
  {
    assert mon[1] == Drop(c);
  }

  /** What an update that fails can do: nobody notices, and the next client finds another version than the
      last owner had in memory. */
  lemma FailureBreaksHandOff(n: nat) returns (es: seq<Event>, s: State)
    ensures Initial(START) && Run(START, es) == Some(s) && s.excl.None?
    ensures s.last == Xattrs(n, 0, 1) && s.stored == Xattrs(0, 0, 0) && s.unsure.version
  {
    hide Run, FastPathNext, Listed;
    es, s := Busy(n);
    RunSnoc(START, es, s, Fail(1));
    es, s := es + [Fail(1)], Next(s, Fail(1));
    NotListed(s, 1, 0, Of(s, 1).epoch);
    RunSnoc(START, es, s, Unlock(1));
    es, s := es + [Unlock(1)], Next(s, Unlock(1));
  }

  // ---- turns pass from one client to the next ----

  /** Unlocking gives the lock and the owner attribute back, all or nothing: exactly if the client is not refused
      and still has both. */
  lemma UnlockExact(s: State, c: Client)
    requires Enabled(s, Unlock(c))
    ensures var t := Next(s, Unlock(c));
            && (t.holder.None? && t.excl.None? && Of(t, c).phase.Idle?
                <==> !Refused(s, c, 0, Of(s, c).epoch) && s.excl == Some(c) && s.holder == Some(c))
            && (!Of(t, c).phase.Idle? ==> t.holder == s.holder && t.excl == s.excl && Of(t, c).phase == Of(s, c).phase)
            && t.mon == s.mon && t.stored == s.stored && forall d :: d != c ==> Of(t, d) == Of(s, d)
  {
    hide Listed, Contact;
    ContactIs(s, c, 0, Of(s, c).epoch);
  }

  /** A client that was never blocklisted fails to get the lock only if it has it; while another one has it, it goes
      on trying. */
  lemma TriesOn(s: State, c: Client)
    requires Of(s, c).phase.Trying? && !Fenced(s, c)
    ensures var l := Of(FastPathNext(s, c), c);
            && (l.phase.Idle? <==> s.holder == Some(c)) && (l.phase.Trying? <==> s.holder.Some? && s.holder.value != c)
            && (l.phase.Opening? <==> s.holder.None? && s.excl.None?) && (l.phase.TakingLock? <==> s.holder.None? && s.excl.Some?)
  {
    hide Listed, Contact;
    NotListed(s, c, 0, Of(s, c).epoch);
    ContactIs(s, c, 0, Of(s, c).epoch);
  }

  /** The same in a recovery: it takes a free lock, and starts over if another client was faster. */
  lemma RetriesOn(s: State, c: Client)
    requires Of(s, c).phase.TakingLock? && !Fenced(s, c)
    ensures var l := Of(TakeLockNext(s, c), c);
            && (l.phase.Idle? <==> s.holder == Some(c)) && (l.phase.Trying? <==> s.holder.Some? && s.holder.value != c)
            && (l.phase.ReadingOwner? <==> s.holder.None?) && (s.holder.None? ==> TakeLockNext(s, c).holder == Some(c))
  {
    hide Listed, Contact;
    NotListed(s, c, 0, Of(s, c).epoch);
    ContactIs(s, c, 0, Of(s, c).epoch);
  }

  /** A file that nobody has is taken by the next client that calls lock(), which then reads what is stored. */
  lemma NextTakes(s: State, d: Client) returns (es: seq<Event>, t: State)
    requires s.holder.None? && s.excl.None? && Of(s, d).phase.Idle? && !Fenced(s, d)
    ensures es == [Lock(d), FastPath(d), Event.Open(d)] && Run(s, es) == Some(t)
    ensures t.holder == Some(d) && t.excl == Some(d) && t.mon == s.mon
    ensures Of(t, d).phase.Owning? && Of(t, d).mem == t.stored == s.stored && Of(t, d).doubt == SURE
  {
    hide Run, Listed, Contact;
    var u := Next(s, Lock(d));
    RunOne(s, Lock(d));
    NotListed(u, d, 0, Of(u, d).epoch);
    ContactIs(u, d, 0, Of(u, d).epoch);
    RunSnoc(s, [Lock(d)], u, FastPath(d));
    u := Next(u, FastPath(d));
    NotListed(u, d, 0, Of(u, d).epoch);
    ContactIs(u, d, 0, Of(u, d).epoch);
    RunSnoc(s, [Lock(d)] + [FastPath(d)], u, Event.Open(d));
    t := Next(u, Event.Open(d));
    es := [Lock(d)] + [FastPath(d)] + [Event.Open(d)];
  }

  /** Whatever the state, an owner that has flushed, is not refused and still has lock and attribute hands the file to
      the next client by its unlock(); no lease has to run out for that. */
  lemma TurnPasses(s: State, c: Client, d: Client) returns (es: seq<Event>, t: State)
    requires Enabled(s, Unlock(c)) && !Refused(s, c, 0, Of(s, c).epoch) && s.excl == Some(c) && s.holder == Some(c)
    requires (d == c || Of(s, d).phase.Idle?) && !Fenced(s, d)
    ensures es == [Unlock(c), Lock(d), FastPath(d), Event.Open(d)] && Run(s, es) == Some(t)
    ensures t.holder == Some(d) && t.excl == Some(d) && t.mon == s.mon
    ensures Of(t, d).phase.Owning? && Of(t, d).mem == t.stored == s.stored
  {
    hide Run, Refused, UnlockNext;
    UnlockExact(s, c);
    var u := Next(s, Unlock(c));
    RunOne(s, Unlock(c));
    var fs;
    fs, t := NextTakes(u, d);
    RunConcat(s, [Unlock(c)], fs);
    es := [Unlock(c)] + fs;
  }

  /** A client that was never blocklisted recovers a file whose owner has vanished and whose lease has run out: it
      has the old owner blocklisted, becomes owner and reads what is stored. */
  lemma Recovers(s: State, c: Client, a: Client) returns (es: seq<Event>, t: State)
    requires Of(s, c) == NOBODY && s.holder.None? && s.excl == Some(a) && c != a && !Fenced(s, c)
    ensures Run(s, es) == Some(t) && t.holder == Some(c) && t.excl == Some(c) && t.mon == s.mon + [Add(a)]
    ensures Of(t, c).phase.Owning? && Of(t, c).mem == t.stored == s.stored
    ensures Unexpired(es) && forall e :: e in es ==> !e.Forgive? && !e.MissMap?
  {
    hide Run, Listed, FastPathNext, Contact;
    var u;
    es, u := StartRecovery(s, c, a);
    assert !Fenced(u, c);
    NotListed(u, c, 0, Of(u, c).epoch);
    ContactIs(u, c, 0, Of(u, c).epoch);
    RunSnoc(s, es, u, SetOwner(c));
    es, u := es + [SetOwner(c)], Next(u, SetOwner(c));
    NotListed(u, c, 0, Of(u, c).epoch);
    ContactIs(u, c, 0, Of(u, c).epoch);
    RunSnoc(s, es, u, Event.Open(c));
    es, t := es + [Event.Open(c)], Next(u, Event.Open(c));
  }

  /** Data that is not refused lands, once. */
  lemma Arrives(s: State, c: Client, i: nat)
    requires i < |Of(s, c).transfers| && !Refused(s, c, Of(s, c).transfers[i].stripe, Of(s, c).transfers[i].epoch)
    ensures var x, l, m := Of(s, c).transfers[i], Of(s, c), Of(ArriveNext(s, c, i), c);
            m.touched == l.touched + {x.stripe} && multiset(m.transfers) == multiset(l.transfers) - multiset{x}
  {
    hide Refused, Contact;
    var l := Of(s, c);
    var x := l.transfers[i];
    ContactIs(s, c, x.stripe, x.epoch);
    assert l.transfers == l.transfers[..i] + [x] + l.transfers[i + 1..];
  }

  // ---- data of an old owner ----

  /** None of these takes the owner attribute without looking, expires an entry, or fails to wait for a map. */
  predicate Calm(es: seq<Event>) {
    forall e :: e in es ==> !e.SetOwner? && !e.Forgive? && !e.MissMap?
  }

  /** No lease runs out in between. */
  predicate Unexpired(es: seq<Event>) {
    forall e :: e in es ==> !e.Expire?
  }

  predicate NoDrops(s: State) {
    forall x :: x in s.mon ==> x.Add?
  }

  lemma NoDropsUndropped(s: State)
    requires NoDrops(s)
    ensures Undropped(s)
  {
    assert forall j :: 0 <= j < |s.mon| ==> s.mon[j] in s.mon;
  }

  lemma StepNoDrops(s: State, e: Event)
    requires NoDrops(s) && Enabled(s, e) && !e.Forgive?
    ensures NoDrops(Next(s, e))
  {
    hide Listed;
  }

  lemma {:induction false} CalmIsGuarded(s: State, es: seq<Event>)
    requires NoDrops(s) && Run(s, es).Some? && Calm(es)
    ensures GuardedRun(s, es) && NoDrops(Run(s, es).value)
    decreases |es|
  {
    hide Next, Enabled, Undropped, NoDrops;
    NoDropsUndropped(s);
    if es != [] {
      assert es[0] in es;
      StepNoDrops(s, es[0]);
      CalmIsGuarded(Next(s, es[0]), es[1..]);
    }
  }

  lemma {:induction false} GuardedConcat(s: State, es: seq<Event>, t: State, fs: seq<Event>)
    requires GuardedRun(s, es) && Run(s, es) == Some(t) && GuardedRun(t, fs)
    ensures GuardedRun(s, es + fs)
    decreases |es|
  {
    hide Next, Enabled, Undropped;
    if es == [] {
      assert es + fs == fs;
    } else {
      assert (es + fs)[1..] == es[1..] + fs;
      GuardedConcat(Next(s, es[0]), es[1..], t, fs);
    }
  }

  /** A clean hand-off of the attributes is not one of the data: client 1 has a write to the object of stripe 5
      under way when its lease runs out; client 2 has it blocklisted and becomes owner.  Nothing failed, no
      entry expired and the lock was held, but the OSD of that object has not heard of the new map, and lets
      the write in. */
  lemma LateDataLands() returns (es: seq<Event>, s: State)
    ensures Initial(START) && GuardedRun(START, es) && Run(START, es) == Some(s)
    ensures s.excl == Some(2) && IsOwner(Of(s, 2)) && !Fenced(s, 2) && Once(s.mon, 1, 0)
    ensures Of(s, 1).transfers == [Transfer(0, 5)] && !Refused(s, 1, 5, 0)
  {
    hide Run, FastPathNext, SetOwnerNext, GuardedRun, Listed;
    var t, u, fs;
    es, t := Opened();
    u := Next(t, Transmit(1, 5));
    RunSnoc(START, es, t, Transmit(1, 5));
    assert Of(u, 1) == Of(t, 1).(transfers := [Transfer(0, 5)]) && Of(u, 2) == Of(t, 2) == NOBODY;
    t := Next(u, Expire);
    RunSnoc(START, es + [Transmit(1, 5)], u, Expire);
    es := es + [Transmit(1, 5)] + [Expire];
    assert Of(t, 1) == Of(u, 1) && Of(t, 2) == Of(u, 2);
    fs, u := StartRecovery(t, 2, 1);
    RunConcat(START, es, fs);
    es := es + fs;
    CalmIsGuarded(START, es);
    s := LastStep(u);
    GuardedConcat(START, es, u, [SetOwner(2)]);
    RunSnoc(START, es, u, SetOwner(2));
    es := es + [SetOwner(2)];
    RefusedExactly(s, 1, 0, 5, 0);
  }

  /** Client 2, holding the lock, sets the owner. */
  lemma LastStep(u: State) returns (s: State)
    requires u.holder == Some(2) && Of(u, 2).phase.SettingOwner? && NoDrops(u) && !Fenced(u, 2)
    ensures Enabled(u, SetOwner(2)) && s == Next(u, SetOwner(2)) && GuardedRun(u, [SetOwner(2)])
    ensures s.excl == Some(2) && IsOwner(Of(s, 2)) && s.mon == u.mon && Of(s, 1) == Of(u, 1)
    ensures forall k :: k != 0 ==> Osd(s, k) == Osd(u, k)
  {
    hide Listed;
    NotListed(u, 2, 0, Of(u, 2).epoch);
    s := Next(u, SetOwner(2));
    NoDropsUndropped(u);
    NoDropsUndropped(s);
    assert [SetOwner(2)][1..] == [];
  }
}
