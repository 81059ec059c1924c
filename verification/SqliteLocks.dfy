/** SQLite's lock levels on top of the striper's one exclusive lock. */
module SqliteLocks {
  import opened Wrappers
  import opened Rados
  import opened LockProtocol

  // The five levels of SQLite.
  const NONE: int := 0
  const SHARED: int := 1
  const RESERVED: int := 2
  const PENDING: int := 3
  const EXCLUSIVE: int := 4

  datatype Result = Ok | IoErr | Abort

  /** How a call into the striper ends. lock() can fail after the lock was taken, when the file cannot
      be opened: the striper then still says that it is locked. */
  datatype Striper = Succeeds | Fails | FailsLocked

  datatype Call = Raise(level: int, striper: Striper) | Lower(level: int, striper: Striper)

  datatype File = File(level: int, locked: bool)

  /** SQLite raises and lowers, never the other way round. */
  predicate Legal(f: File, c: Call) {
    match c
    case Raise(l, _) => f.level <= l
    case Lower(l, _) => NONE <= l <= f.level
  }

  function Step(f: File, c: Call): (File, Result) {
    match c
    case Raise(l, s) =>
      if (f.locked && f.level <= NONE) || l < f.level then (f, Abort)
      else if !f.locked && l > NONE then
        match s
        case Succeeds => (File(l, true), Ok)
        case Fails => (f, IoErr)
        case FailsLocked => (f.(locked := true), IoErr)
      else (f.(level := l), Ok)
    case Lower(l, s) =>
      if !(f.level == NONE || (f.level > NONE && f.locked)) || f.level < l then (f, Abort)
      else if l <= NONE < f.level then
        if s.Succeeds? then (File(l, false), Ok) else (f, IoErr)
      else (f.(level := l), Ok)
  }

  predicate Coupled(f: File) {
    f.level >= NONE && (f.locked <==> f.level > NONE)
  }

  /** The striper is locked exactly while a level is held, and it stays so, without any assertion
      firing, as long as no lock() fails with the lock taken.  The first that does breaks it. */
  lemma StepCoupled(f: File, c: Call)
    requires Coupled(f) && Legal(f, c)
    ensures Step(f, c).1 != Abort
    ensures Coupled(Step(f, c).0) <==> !(c.Raise? && c.striper.FailsLocked? && f.level == NONE && c.level > NONE)
  {
  }

  /** The striper has to be locked, or unlocked, for this call. */
  predicate Asks(f: File, c: Call) {
    if c.Raise? then f.level == NONE < c.level else c.level <= NONE < f.level
  }

  /** A call that returns Ok leaves the level asked for and any other the old one; it returns Ok exactly if the
      striper is not needed or does its part. */
  lemma StepLevel(f: File, c: Call)
    ensures Step(f, c).0.level == if Step(f, c).1.Ok? then c.level else f.level
    ensures Coupled(f) && Legal(f, c) ==> (Step(f, c).1.Ok? <==> Asks(f, c) ==> c.striper.Succeeds?)
  {
  }

  /** From then on every attempt to raise the level aborts, and nothing repairs it. */
  lemma BrokenForGood(f: File, c: Call)
    requires f.level == NONE && f.locked && Legal(f, c)
    ensures Step(f, c).0 == f
    ensures c.Raise? ==> Step(f, c).1 == Abort
  {
  }

  function Play(f: File, cs: seq<Call>): (File, seq<Result>)
    decreases |cs|
  {
    if cs == [] then (f, [])
    else
      var (g, r) := Step(f, cs[0]);
      var (h, rs) := Play(g, cs[1..]);
      (h, [r] + rs)
  }

  /** The level of the last call that returned Ok. */
  function LastLevel(level: int, cs: seq<Call>, rs: seq<Result>): int
    requires |rs| == |cs|
    decreases |cs|
  {
    if cs == [] then level
    else LastLevel(if rs[0].Ok? then cs[0].level else level, cs[1..], rs[1..])
  }

  /** Over any calls at all, legal or not, the level is the one that was last granted. */
  lemma {:induction false} LevelIsLast(f: File, cs: seq<Call>)
    ensures |Play(f, cs).1| == |cs| && Play(f, cs).0.level == LastLevel(f.level, cs, Play(f, cs).1)
    decreases |cs|
  {
    hide Step;
    if cs != [] {
      StepLevel(f, cs[0]);
      LevelIsLast(Step(f, cs[0]).0, cs[1..]);
      assert Play(f, cs).1[1..] == Play(Step(f, cs[0]).0, cs[1..]).1;
    }
  }

  predicate LegalRun(f: File, cs: seq<Call>)
    decreases |cs|
  {
    cs == [] || (Legal(f, cs[0]) && LegalRun(Step(f, cs[0]).0, cs[1..]))
  }

  /** A lock() that failed with the lock taken. */
  predicate Slipped(f: File, cs: seq<Call>)
    decreases |cs|
  {
    cs != [] &&
    ((cs[0].Raise? && cs[0].striper.FailsLocked? && !f.locked && f.level == NONE && cs[0].level > NONE)
     || Slipped(Step(f, cs[0]).0, cs[1..]))
  }

  lemma {:induction false} StuckBroken(f: File, cs: seq<Call>)
    requires f.level == NONE && f.locked && LegalRun(f, cs)
    ensures Play(f, cs).0 == f && !Slipped(f, cs)
    decreases |cs|
  {
    if cs != [] {
      BrokenForGood(f, cs[0]);
      StuckBroken(f, cs[1..]);
    }
  }

  /** Over every legal run, the striper ends up locked exactly while a level is held if and only if no
      lock() failed with the lock taken; and if none did, no assertion ever fired. */
  lemma {:induction false} CouplingExact(f: File, cs: seq<Call>)
    requires Coupled(f) && LegalRun(f, cs)
    ensures Coupled(Play(f, cs).0) <==> !Slipped(f, cs)
    ensures !Slipped(f, cs) ==> Abort !in Play(f, cs).1
    decreases |cs|
  {
    if cs != [] {
      var g := Step(f, cs[0]).0;
      StepCoupled(f, cs[0]);
      if Coupled(g) {
        CouplingExact(g, cs[1..]);
      } else {
        StuckBroken(g, cs[1..]);
      }
    }
  }

  /** One open database file. */
  class SqliteFile {
    var level: int
    var locked: bool   // the striper's own flag

    constructor ()
      ensures View() == File(NONE, false)
    {
      level, locked := NONE, false;
    }

    function View(): File
      reads this
    {
      File(level, locked)
    }

    method Lock(ilock: int, striper: Striper) returns (r: Result)
      modifies this
      ensures (View(), r) == Step(old(View()), Raise(ilock, striper))
    {
      if locked && level <= NONE { return Abort; }
      if ilock < level { return Abort; }
      if !locked && ilock > NONE {
        match striper {
          case Succeeds => locked := true;
          case Fails => return IoErr;
          case FailsLocked => locked := true; return IoErr;
        }
      }
      level := ilock;
      r := Ok;
    }

    method Unlock(ilock: int, striper: Striper) returns (r: Result)
      modifies this
      ensures (View(), r) == Step(old(View()), Lower(ilock, striper))
    {
      if !(level == NONE || (level > NONE && locked)) { return Abort; }
      if level < ilock { return Abort; }
      if ilock <= NONE && NONE < level {
        if !striper.Succeeds? { return IoErr; }
        locked := false;
      }
      level := ilock;
      r := Ok;
    }

    /** Whether any database of the cluster has a level above SHARED, told from the level of this one: for a
        file that is client c's part of the cluster k the answer is right. */
    method CheckReservedLock(ghost k: Cluster, ghost c: Client) returns (reserved: bool)
      ensures reserved <==> level > SHARED
      ensures Reached(k) && level == LevelOf(k, c) >= SHARED && !Fenced(k.s, c) ==>
                (reserved <==> exists d :: !Fenced(k.s, d) && LevelOf(k, d) > SHARED)
    {
      reserved := false;
      if level > SHARED {
        reserved := true;
      }
      if Reached(k) {
        ghost var i: Cluster, ms :| Initial(i.s) && i.levels == map[] && After(i, ms) == Some(k);
        ReservedIsGlobal(i, ms, c);
      }
    }
  }

  // ---- all clients together ----

  /** The lock protocol with the level that each client has told SQLite it holds. */
  datatype Cluster = Cluster(s: State, levels: map<Client, int>)

  datatype Move =
    | Protocol(e: Event)                // any step of the lock protocol but a database's own unlock
    | Take(c: Client, level: int)       // Lock() returns Ok
    | Ease(c: Client, level: int)       // Unlock() to a level above NONE returns Ok
    | Release(c: Client)                // Unlock() to NONE asks the striper to unlock

  function LevelOf(k: Cluster, c: Client): int {
    if c in k.levels then k.levels[c] else NONE
  }

  predicate CanMove(k: Cluster, m: Move) {
    match m
    case Protocol(e) => Enabled(k.s, e) && Held(k.s, e) && (e.Unlock? ==> LevelOf(k, e.c) == NONE)
    case Take(c, l) => Of(k.s, c).phase.Owning? && LevelOf(k, c) <= l && NONE < l
    case Ease(c, l) => NONE < l <= LevelOf(k, c)
    case Release(c) => NONE < LevelOf(k, c) && Enabled(k.s, Unlock(c))
  }

  function Moved(k: Cluster, m: Move): Cluster
    requires CanMove(k, m)
  {
    match m
    case Protocol(e) => k.(s := Next(k.s, e))
    case Take(c, l) => k.(levels := k.levels[c := l])
    case Ease(c, l) => k.(levels := k.levels[c := l])
    case Release(c) =>
      var t := UnlockNext(k.s, c);
      Cluster(t, if Of(t, c).phase.Idle? then k.levels[c := NONE] else k.levels)
  }

  function After(k: Cluster, ms: seq<Move>): Option<Cluster>
    decreases |ms|
  {
    if ms == [] then Some(k)
    else if CanMove(k, ms[0]) then After(Moved(k, ms[0]), ms[1..])
    else None
  }

  /** Every call leaves the level it asked for, a release exactly if unlocking worked, and nobody else's changes. */
  lemma MovedLevels(k: Cluster, m: Move, d: Client)
    requires CanMove(k, m)
    ensures LevelOf(Moved(k, m), d) ==
              if (m.Take? || m.Ease?) && m.c == d then m.level
              else if m.Release? && m.c == d && Of(Moved(k, m).s, d).phase.Idle? then NONE
              else LevelOf(k, d)
    ensures m.Release? && !Refused(k.s, m.c, 0, Of(k.s, m.c).epoch) && k.s.excl == Some(m.c) && k.s.holder == Some(m.c) ==>
              LevelOf(Moved(k, m), m.c) == NONE && Moved(k, m).s.holder.None?
  {
    hide Refused, UnlockNext;
    if m.Release? { UnlockExact(k.s, m.c); }
  }

  ghost predicate ClusterInv(k: Cluster) {
    Claims(k.s) && forall c :: LevelOf(k, c) > NONE ==> IsOwner(Of(k.s, c))
  }

  predicate ByClient(e: Event, c: Client) {
    !e.Expire? && !e.Gossip? && e.c == c
  }

  lemma ContactOthers(s: State, c: Client, k: nat, e: nat, d: Client)
    requires d != c
    ensures Of(Contact(s, c, k, e), d) == Of(s, d)
  {
  }

  predicate AsksFirstObject(e: Event) {
    e.FastPath? || e.TakeLock? || e.ReadOwner? || e.SetOwner? || e.Open? || e.Unlock?
  }

  lemma OthersAsked(s: State, e: Event, c: Client)
    requires Enabled(s, e) && !ByClient(e, c) && AsksFirstObject(e)
    ensures Of(Next(s, e), c) == Of(s, c)
  {
    hide Refused, Contact;
    ContactOthers(s, e.c, 0, Of(s, e.c).epoch, c);
  }

  lemma OthersStay(s: State, e: Event, c: Client)
    requires Enabled(s, e) && !ByClient(e, c)
    ensures Of(Next(s, e), c) == Of(s, c)
  {
    hide Refused, Contact, FastPathNext, TakeLockNext, ReadOwnerNext, SetOwnerNext, OpenNext, UnlockNext;
    if AsksFirstObject(e) {
      OthersAsked(s, e, c);
    } else if e.Deliver? {
      ContactOthers(s, e.c, 0, Of(s, e.c).updates[0].epoch, c);
    } else if e.Arrive? {
      ContactOthers(s, e.c, Of(s, e.c).transfers[e.i].stripe, Of(s, e.c).transfers[e.i].epoch, c);
    }
  }

  lemma OwnStays(s: State, e: Event, c: Client)
    requires Enabled(s, e) && ByClient(e, c) && IsOwner(Of(s, c)) && !e.Unlock?
    ensures IsOwner(Of(Next(s, e), c))
  {
    hide Listed, Refused, Osd, Seen;
  }

  /** Nobody but an unlock takes ownership away. */
  lemma OwnerStays(s: State, e: Event, c: Client)
    requires Enabled(s, e) && IsOwner(Of(s, c)) && !(e.Unlock? && e.c == c)
    ensures IsOwner(Of(Next(s, e), c))
  {
    hide Enabled, Next;
    if ByClient(e, c) { OwnStays(s, e, c); } else { OthersStay(s, e, c); }
  }

  lemma MoveKeeps(k: Cluster, m: Move)
    requires ClusterInv(k) && CanMove(k, m)
    ensures ClusterInv(Moved(k, m))
  {
    hide Claims, Listed;
    match m {
      case Protocol(e) =>
        StepClaims(k.s, e);
        forall c | LevelOf(k, c) > NONE ensures IsOwner(Of(Next(k.s, e), c)) { OwnerStays(k.s, e, c); }
      case Take(_, _) =>
      case Ease(_, _) =>
      case Release(c) =>
        StepClaims(k.s, Unlock(c));
        forall d | LevelOf(Moved(k, m), d) > NONE ensures IsOwner(Of(Moved(k, m).s, d)) {
          if d != c { OwnerStays(k.s, Unlock(c), d); }
        }
    }
  }

  lemma {:induction false} MovesKeep(k: Cluster, ms: seq<Move>)
    requires ClusterInv(k) && After(k, ms).Some?
    ensures ClusterInv(After(k, ms).value)
    decreases |ms|
  {
    hide Claims, CanMove, Moved;
    if ms != [] {
      MoveKeeps(k, ms[0]);
      MovesKeep(Moved(k, ms[0]), ms[1..]);
    }
  }

  /** A state of the cluster that a run of all its databases leads to. */
  ghost predicate Reached(k: Cluster) {
    exists i: Cluster, ms :: Initial(i.s) && i.levels == map[] && After(i, ms) == Some(k)
  }

  /** A level above SHARED that client `c` holds is held by nobody else in the whole cluster, of those that
      were never blocklisted; so whether anybody does can be told from the level of `c` alone. */
  lemma ReservedIsGlobal(k: Cluster, ms: seq<Move>, c: Client)
    requires Initial(k.s) && k.levels == map[] && After(k, ms).Some?
    ensures var n := After(k, ms).value;
            !Fenced(n.s, c) && LevelOf(n, c) >= SHARED ==>
              (LevelOf(n, c) > SHARED <==> exists d :: !Fenced(n.s, d) && LevelOf(n, d) > SHARED)
  {
    hide Claims, Listed;
    InitialClaims(k.s);
    MovesKeep(k, ms);
    var n := After(k, ms).value;
    if !Fenced(n.s, c) && LevelOf(n, c) >= SHARED {
      forall d | !Fenced(n.s, d) && LevelOf(n, d) > SHARED ensures d == c {
        UnfencedOwner(n.s, c);
        UnfencedOwner(n.s, d);
      }
    }
  }

  lemma UnfencedOwner(s: State, c: Client)
    requires Claims(s) && IsOwner(Of(s, c)) && !Fenced(s, c)
    ensures s.excl == Some(c)
  {
    ClaimAt(s, c);
  }
}
