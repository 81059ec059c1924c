/** The inode cache of the tracing file system, as objects that point at each other. */
module InodeCache {
  import opened Wrappers
  import opened InodeOrder
  import G = InodeGraph

  /** An open file descriptor. */
  datatype Fd = Fd(number: int)

  class Inode {
    const ino: nat
    var ref: int
    var fds: set<Fd>
    var parents: map<Key, Inode>
    var dentries: map<string, Inode>

    constructor (n: nat)
      ensures ino == n && ref == 0 && fds == {} && parents == map[] && dentries == map[]
    {
      ino, ref, fds, parents, dentries := n, 0, {}, map[], map[];
    }

    function Child(d: string): Inode
      requires d in dentries
      reads this
    {
      dentries[d]
    }
  }

  class Cache {
    const root: Inode
    var inodeMap: map<nat, Inode>
    /** The numbers under which the index holds nothing but a null entry: asking for a number enters it. */
    var nulls: set<nat>
    /** All inodes in use, and a witness that no inode is below itself. */
    ghost var live: set<Inode>
    ghost var rank: map<Inode, nat>

    /** The graph as it is now. */
    ghost function Snap(): G.Graph<Inode>
      reads this`live, live
    {
      map x | x in live :: G.Node(x.ino, x.parents, x.dentries)
    }

    /** Whatever the index holds under a number is an inode in use that has this number. */
    ghost predicate Pointed()
      reads this`inodeMap, this`nulls, this`live
    {
      && (forall i :: i in inodeMap ==> inodeMap[i] in live && inodeMap[i].ino == i)
      && nulls !! inodeMap.Keys
    }

    /** The index holds every inode in use. */
    ghost predicate Indexed()
      reads this`inodeMap, this`live
    {
      forall x :: x in live ==> x.ino in inodeMap && inodeMap[x.ino] == x
    }

    /** Links are consistent, no inode is below itself, and the index does not lead astray. */
    ghost predicate Sound()
      reads this, live
    {
      root in live && root.ino == 1 && G.Linked(Snap()) && G.Ranked(Snap(), rank) && Pointed()
    }

    constructor ()
      ensures Sound() && Indexed() && fresh(root) && live == {root} && nulls == {}
      ensures root.dentries == map[] && root.parents == map[]
    {
      var r := new Inode(1);
      root := r;
      inodeMap, nulls := map[1 := r], {};
      live, rank := {r}, map[r := 0];
      new;
      root.ref := root.ref + 1;
      assert Snap() == map[root := G.Node(1, map[], map[])];
    }

    /** Drops a directory entry and then the child's way back, whose name is by then what `after` says: the
        same, unless the name was handed over as the entry's own. */
    method RemoveDentry(pin: Inode, dname: string, after: string)
      requires pin in live && dname in pin.dentries && pin.dentries[dname] in live
      modifies pin`dentries, pin.Child(dname)`parents
      ensures pin.dentries == old(pin.dentries) - {dname}
      ensures old(pin.Child(dname)).parents == old(pin.Child(dname).parents) - {Key(after, pin.ino)}
      ensures Snap() == old(G.DetachAs(Snap(), pin, dname, after))
      ensures after == dname ==> Snap() == old(G.Detach(Snap(), pin, dname))
    {
      var child := pin.dentries[dname];
      pin.dentries := pin.dentries - {dname};
      child.parents := child.parents - {Key(after, pin.ino)};
    }

    method Attach(parent: Inode, dname: string, child: Inode)
      requires parent in live && child in live
      modifies parent`dentries, child`parents
      ensures Snap() == old(G.Attach(Snap(), parent, dname, child))
    {
      parent.dentries := parent.dentries[dname := child];
      child.parents := child.parents[Key(dname, parent.ino) := parent];
    }

    /** Adds a directory entry in place of whatever is listed there. */
    method AddDentry(parent: Inode, dname: string, child: Inode)
      requires parent in live && child in live && (dname in parent.dentries ==> parent.dentries[dname] in live)
      modifies live`dentries, live`parents
      ensures Snap() == old(G.AddDentry(Snap(), parent, dname, child))
    {
      hide G.Detach, G.Attach;
      if dname in parent.dentries { RemoveDentry(parent, dname, dname); }
      Attach(parent, dname, child);
    }

    /** The loop over the parents, which keeps a copy of the name it drops. */
    method DropParents(x: Inode)
      requires G.Linked(Snap()) && x in live
      modifies live`dentries, live`parents
      ensures G.Linked(Snap()) && Snap() == old(G.DropUp(Snap(), x))
    {
      hide G.Detach, G.DropUp, G.Linked;
      while x.parents != map[]
        invariant G.Linked(Snap()) && G.DropUp(Snap(), x) == old(G.DropUp(Snap(), x))
        decreases |x.parents|
      {
        var k := FirstKey(x.parents.Keys);
        LinkUp(x, k);
        G.DetachLinked(Snap(), x.parents[k], k.name);
        G.DetachDropUp(Snap(), x.parents[k], k.name, x);
        RemoveDentry(x.parents[k], k.name, k.name);
      }
      G.OrphanDropUp(Snap(), x);
    }

    lemma LinkUp(x: Inode, k: Key)
      requires G.Linked(Snap()) && x in live && k in x.parents
      ensures x.parents[k] in live && x.parents[k].ino == k.ino
      ensures k.name in x.parents[k].dentries && x.parents[k].dentries[k.name] == x
    {
      assert G.LinkedUp(Snap(), x, k);
    }

    lemma LinkDown(x: Inode, d: string)
      requires G.Linked(Snap()) && x in live && d in x.dentries
      ensures x.dentries[d] in live
    {
      assert G.LinkedDown(Snap(), x, d);
    }

    /** The loop over the children.  Each name is that of the entry which goes, so that nobody knows what it
        reads as when the way back is looked for. */
    method DropChildren(x: Inode) returns (ghost names: seq<string>, ghost found: seq<string>)
      requires x in live && G.Closed(Snap())
      modifies live`dentries, live`parents
      ensures |found| == |names| && G.Lists(names, old(x.dentries)) && Snap() == old(G.DropDown(Snap(), x, names, found))
    {
      hide G.DropDown, G.DetachAs;
      names, found := [], [];
      DropDownNone(Snap(), x);
      while x.dentries != map[]
        invariant |found| == |names| && Snap() == old(G.DropDown(Snap(), x, names, found))
        invariant forall d :: d in x.dentries || d in names <==> d in old(x.dentries)
        invariant forall d :: d in names ==> d !in x.dentries
        invariant forall i, j :: 0 <= i < j < |names| ==> names[i] != names[j]
        decreases |x.dentries|
      {
        G.DropDownClosed(old(Snap()), x, names, found);
        var d :| d in x.dentries;
        var freed: string := *;
        ChildLive(x, d);
        G.DropDownSnoc(old(Snap()), x, names, found, d, freed);
        RemoveDentry(x, d, freed);
        names, found := names + [d], found + [freed];
      }
    }

    lemma ChildLive(x: Inode, d: string)
      requires x in live && G.Closed(Snap()) && d in x.dentries
      ensures x.dentries[d] in live
    {
      assert Snap()[x].dentries[d] in Snap();
    }

    method CloseFds(x: Inode)
      modifies x`fds
      ensures x.fds == {}
    {
      while x.fds != {}
        decreases x.fds
      {
        var fd :| fd in x.fds;
        x.fds := x.fds - {fd};
      }
    }

    /** Drops the links of an inode, parents first, and closes what is open on it.  Only for an inode without
        entries is it sure that the ways back to it are gone as well. */
    method UnlinkInode(x: Inode) returns (ghost names: seq<string>, ghost found: seq<string>)
      requires G.Linked(Snap()) && G.Ranked(Snap(), rank) && x in live
      modifies live`dentries, live`parents, x`fds
      ensures |found| == |names| && G.Lists(names, old(x.dentries))
      ensures Snap() == old(G.Unlinked(Snap(), x, names, found)) && x.fds == {}
      ensures old(x.dentries) == map[] ==> Snap() == old(G.Isolate(Snap(), x))
    {
      hide G.Isolate, G.Linked, G.DropUp, G.DropDown, G.Ranked;
      ghost var before := Snap();
      G.DropUpEntries(before, rank, x);
      DropParents(x);
      G.LinkedClosed(Snap());
      names, found := DropChildren(x);
      if old(x.dentries) == map[] {
        G.BareNames(before, x, names, found);
        G.BareUnlinked(before, x);
      }
      CloseFds(x);
    }

    /** Takes an inode out of the cache.  If it had no entries, no inode that stays mentions it. */
    method RemoveInode(x: Inode) returns (ghost names: seq<string>, ghost found: seq<string>)
      requires Sound() && x in live && x != root && x.ino in inodeMap && inodeMap[x.ino] == x
      modifies this, live`dentries, live`parents, x`fds
      ensures live == old(live) - {x} && inodeMap == old(inodeMap) - {x.ino} && nulls == old(nulls)
      ensures |found| == |names| && G.Lists(names, old(x.dentries)) && Snap() == old(G.Unlinked(Snap(), x, names, found)) - {x}
      ensures old(x.dentries) == map[] ==> Sound() && Snap() == old(G.Isolate(Snap(), x)) - {x}
      ensures old(x.dentries) == map[] ==> forall y :: y in live ==> x !in y.dentries.Values && x !in y.parents.Values
      ensures old(Indexed()) ==> Indexed()
    {
      hide G.Isolate, G.Linked, G.Ranked, G.Unlinked, G.Lists;
      ghost var bare := x.dentries == map[];
      G.IsolateLinked(Snap(), x);
      G.IsolateRanked(Snap(), rank, x);
      G.IsolateAlone(Snap(), x);
      names, found := UnlinkInode(x);
      ghost var before := Snap();
      if bare { G.RemoveAlone(before, rank, x); }
      Erase(x);
      assert Snap() == before - {x};
      if bare {
        forall y | y in live ensures x !in y.dentries.Values && x !in y.parents.Values {
          assert Snap()[y] == G.Node(y.ino, y.parents, y.dentries);
        }
      }
    }

    /** Takes an inode out of the index. */
    method Erase(x: Inode)
      requires Pointed() && x in live && x.ino in inodeMap && inodeMap[x.ino] == x
      modifies this`inodeMap, this`live
      ensures live == old(live) - {x} && inodeMap == old(inodeMap) - {x.ino}
      ensures Pointed() && (old(Indexed()) ==> Indexed())
    {
      inodeMap := inodeMap - {x.ino};
      live := live - {x};
    }

    /** The kernel forgets a number of references; the last one takes the inode along. */
    method Forget(ino: nat, nlookup: nat) returns (ghost names: seq<string>, ghost found: seq<string>)
      requires Sound()
      modifies this, live
      ensures nulls == if ino == 1 || ino in old(inodeMap) then old(nulls) else old(nulls) + {ino}
      ensures ino != 1 && ino in old(inodeMap) && old(inodeMap[ino].ref) <= nlookup ==>
                var x := old(inodeMap[ino]);
                && live == old(live) - {x} && inodeMap == old(inodeMap) - {ino} && |found| == |names|
                && G.Lists(names, old(inodeMap[ino].dentries)) && Snap() == old(G.Unlinked(Snap(), inodeMap[ino], names, found)) - {x}
                && (old(inodeMap[ino].dentries) == map[] ==> Sound() && Snap() == old(G.Isolate(Snap(), inodeMap[ino])) - {x})
      ensures !(ino != 1 && ino in old(inodeMap) && old(inodeMap[ino].ref) <= nlookup) ==>
                Sound() && live == old(live) && inodeMap == old(inodeMap) && Snap() == old(Snap())
      ensures forall y :: y in live ==> y.ref == old(y.ref) - if ino != 1 && old(ino in inodeMap && inodeMap[ino] == y) then nlookup else 0
      ensures old(Indexed()) ==> Indexed()
    {
      hide G.Linked, G.Ranked, G.Isolate, G.Unlinked, G.Lists;
      names, found := [], [];
      if ino != 1 {
        if ino in inodeMap {
          var x := inodeMap[ino];
          x.ref := x.ref - nlookup;
          assert Snap() == old(Snap());
          if x.ref <= 0 { names, found := RemoveInode(x); }
        } else {
          nulls := nulls + {ino};
          assert Snap() == old(Snap());
        }
      }
    }

    /** Makes room for a link from `parent` to `child` in the rank. */
    ghost method Lift(parent: Inode, child: Inode)
      requires Sound() && parent in live && child in live && !G.IsBelow(Snap(), rank, child, parent)
      modifies this`rank
      ensures Sound() && rank[parent] < rank[child]
    {
      hide G.Linked, G.Ranked;
      G.LiftRanked(Snap(), rank, child, parent);
      rank := G.Lifted(Snap(), rank, child, parent);
      assert Snap() == old(Snap());
    }

    /** With one inode per number the child cannot list another parent under the same key. */
    lemma NeverClash(parent: Inode, dname: string, child: Inode)
      requires G.Linked(Snap()) && Indexed() && parent in live && child in live
      ensures G.NoClash(Snap(), parent, dname, child)
    {
      var key := Key(dname, parent.ino);
      if key in child.parents { LinkUp(child, key); }
    }

    /** Adds an entry for an inode of which it is known that it has a place in the order. */
    method Insert(parent: Inode, dname: string, child: Inode)
      requires Sound() && parent in live && child in live && rank[parent] < rank[child]
      modifies live`dentries, live`parents
      ensures Snap() == old(G.AddDentry(Snap(), parent, dname, child)) && G.Ranked(Snap(), rank)
      ensures Sound() <==> old(G.NoClash(Snap(), parent, dname, child))
    {
      hide G.Linked, G.Ranked, G.AddDentry, G.NoClash;
      G.AddDentryExact(Snap(), parent, dname, child);
      G.AddDentryRanked(Snap(), rank, parent, dname, child);
      if dname in parent.dentries { LinkDown(parent, dname); }
      AddDentry(parent, dname, child);
    }

    /** The entry of a file that was just created: an inode left over under its number is reused.  There is
        no result if the index has a null entry there, which would go on to be unlinked. */
    method AddInode(parent: Inode, dname: string, ino: nat)
      returns (r: Option<Inode>, ghost names: seq<string>, ghost found: seq<string>)
      requires Sound() && parent in live && ino != parent.ino
      modifies this, live
      ensures nulls == old(nulls) && (r.None? <==> ino in old(nulls))
      ensures r.None? ==> Sound() && live == old(live) && inodeMap == old(inodeMap) && Snap() == old(Snap())
      ensures r.Some? ==> r.value.ino == ino && inodeMap == old(inodeMap)[ino := r.value] && live == old(live) + {r.value}
      ensures ino in old(inodeMap) ==>
                && r == Some(old(inodeMap[ino])) && |found| == |names| && G.Lists(names, old(inodeMap[ino].dentries))
                && Snap() == G.AddDentry(old(G.Unlinked(Snap(), inodeMap[ino], names, found)), parent, dname, r.value)
                && (old(inodeMap[ino].dentries) == map[] ==>
                      Sound() && Snap() == G.AddDentry(old(G.Isolate(Snap(), inodeMap[ino])), parent, dname, r.value))
      ensures r.Some? && ino !in old(inodeMap) ==>
                Sound() && fresh(r.value)
                && Snap() == G.AddDentry(old(Snap())[r.value := G.Node(ino, map[], map[])], parent, dname, r.value)
      ensures old(Indexed()) ==> Indexed()
    {
      hide G.Linked, G.Ranked, G.AddDentry, G.Isolate, G.IsBelow, G.Unlinked, G.Lists;
      names, found := [], [];
      if ino in nulls { return None, [], []; }
      if ino in inodeMap {
        var x := inodeMap[ino];
        names, found := Reuse(x, parent, dname);
        r := Some(x);
      } else {
        var x := Create(ino, parent);
        Insert(parent, dname, x);
        r := Some(x);
      }
    }

    /** An inode left over is unlinked and gets its new entry. */
    method Reuse(x: Inode, parent: Inode, dname: string) returns (ghost names: seq<string>, ghost found: seq<string>)
      requires Sound() && x in live && parent in live && x != parent
      modifies this`rank, live`dentries, live`parents, x`fds
      ensures |found| == |names| && G.Lists(names, old(x.dentries))
      ensures Snap() == G.AddDentry(old(G.Unlinked(Snap(), x, names, found)), parent, dname, x)
      ensures old(x.dentries) == map[] ==> Sound() && Snap() == G.AddDentry(old(G.Isolate(Snap(), x)), parent, dname, x)
    {
      hide G.Linked, G.Ranked, G.Isolate, G.IsBelow, G.AddDentry, G.Unlinked, G.Lists, G.DropDown, G.DropUp;
      ghost var bare, g := x.dentries == map[], Snap();
      G.IsolateLinked(g, x);
      G.IsolateRanked(g, rank, x);
      G.IsolateAlone(g, x);
      names, found := UnlinkInode(x);
      G.UnlinkedClosed(g, x, names, found);
      if bare { MakeRoom(parent, dname, x); }
      if dname in parent.dentries { ChildLive(parent, dname); }
      AddDentry(parent, dname, x);
    }

    /** An inode without links can be listed anywhere. */
    ghost method MakeRoom(parent: Inode, dname: string, x: Inode)
      requires Sound() && parent in live && x in live && x != parent && x.parents == map[] && x.dentries == map[]
      modifies this`rank
      ensures Sound() && Snap() == old(Snap())
      ensures G.Linked(G.AddDentry(Snap(), parent, dname, x)) && G.Ranked(G.AddDentry(Snap(), parent, dname, x), rank)
    {
      hide G.Linked, G.Ranked, G.IsBelow, G.AddDentry;
      G.AloneBelow(Snap(), rank, x, parent);
      Lift(parent, x);
      G.AddDentryExact(Snap(), parent, dname, x);
      G.AddDentryRanked(Snap(), rank, parent, dname, x);
    }

    /** A new inode takes its number in the index. */
    method Create(ino: nat, ghost parent: Inode) returns (x: Inode)
      requires Sound() && parent in live
      modifies this
      ensures fresh(x) && x.ino == ino && x.ref == 0 && x.dentries == map[] && x.parents == map[]
      ensures live == old(live) + {x} && inodeMap == old(inodeMap)[ino := x] && nulls == old(nulls) - {ino}
      ensures Snap() == old(Snap())[x := G.Node(ino, map[], map[])]
      ensures Sound() && parent in rank && x in rank && rank[parent] < rank[x]
      ensures Indexed() <==> old(Indexed()) && ino !in old(inodeMap)
    {
      hide G.Linked, G.Ranked;
      x := new Inode(ino);
      G.RankDomain(Snap(), rank, parent);
      G.AddAlone(Snap(), rank, x, ino, rank[parent] + 1);
      ghost var before := Snap();
      Enter(x);
      rank := rank[x := rank[parent] + 1];
      assert Snap() == before[x := G.Node(ino, map[], map[])];
    }

    /** Enters a new inode into the index, over whatever is there. */
    method Enter(x: Inode)
      requires Pointed() && x !in live
      modifies this`inodeMap, this`nulls, this`live
      ensures live == old(live) + {x} && inodeMap == old(inodeMap)[x.ino := x] && nulls == old(nulls) - {x.ino}
      ensures Pointed() && (Indexed() <==> old(Indexed()) && x.ino !in old(inodeMap))
    {
      ghost var ino := x.ino;
      if ino in inodeMap { assert inodeMap[ino] in live && inodeMap[ino].ino == ino; }
      inodeMap, nulls := inodeMap[x.ino := x], nulls - {x.ino};
      live := live + {x};
      if !old(Indexed()) {
        ghost var y :| y in old(live) && !(y.ino in old(inodeMap) && old(inodeMap)[y.ino] == y);
        assert y in live && y != x;
      }
    }

    /** The cache part of a rename: the new entry first, then the old one goes. */
    method Rename(pin: Inode, dname: string, newpin: Inode, newdname: string)
      requires Sound() && pin in live && newpin in live
      requires dname in pin.dentries && pin.dentries[dname] in live ==>
                 !G.IsBelow(Snap(), rank, pin.dentries[dname], newpin)
      modifies this`rank, live`dentries, live`parents
      ensures dname !in old(pin.dentries) ==> Sound() && Snap() == old(Snap())
      ensures dname in old(pin.dentries) ==>
                && old(pin.dentries[dname]) in live && Snap() == old(G.Renamed(Snap(), pin, dname, newpin, newdname))
                && (Sound() <==> old(G.NoClash(Snap(), newpin, newdname, pin.dentries[dname])))
      ensures old(Indexed()) ==> Indexed() && Sound()
    {
      hide G.Linked, G.Ranked, G.IsBelow, G.Renamed, G.NoClash;
      if dname in pin.dentries {
        LinkDown(pin, dname);
        Lift(newpin, pin.dentries[dname]);
        if Indexed() { NeverClash(newpin, newdname, pin.dentries[dname]); }
        Move(pin, dname, newpin, newdname);
      }
    }

    /** Moves an inode of which it is known that it has a place in the order. */
    method Move(pin: Inode, dname: string, newpin: Inode, newdname: string)
      requires Sound() && pin in live && newpin in live && dname in pin.dentries && pin.dentries[dname] in live
      requires rank[newpin] < rank[pin.dentries[dname]]
      modifies live`dentries, live`parents
      ensures Snap() == old(G.Renamed(Snap(), pin, dname, newpin, newdname))
      ensures Sound() <==> old(G.NoClash(Snap(), newpin, newdname, pin.dentries[dname]))
    {
      hide G.Linked, G.Ranked, G.AddDentry, G.Detach, G.NoClash;
      ghost var g := Snap();
      G.RenamedExact(g, pin, dname, newpin, newdname);
      G.RenamedRanked(g, rank, pin, dname, newpin, newdname);
      G.AddDentryEntries(g, newpin, newdname, pin.dentries[dname], pin, dname);
      if newdname in newpin.dentries { LinkDown(newpin, newdname); }
      AddDentry(newpin, newdname, pin.dentries[dname]);
      RemoveDentry(pin, dname, dname);
    }

    /** The cache part of a hard link. */
    method Link(x: Inode, newpin: Inode, newdname: string)
      requires Sound() && x in live && newpin in live && !G.IsBelow(Snap(), rank, x, newpin)
      modifies this`rank, live
      ensures Snap() == old(G.AddDentry(Snap(), newpin, newdname, x)) && x.ref == old(x.ref) + 1
      ensures Sound() <==> old(G.NoClash(Snap(), newpin, newdname, x))
      ensures old(Indexed()) ==> Indexed() && Sound()
    {
      hide G.Linked, G.Ranked, G.IsBelow, G.AddDentry, G.NoClash;
      Lift(newpin, x);
      if Indexed() { NeverClash(newpin, newdname, x); }
      Insert(newpin, newdname, x);
      Hold(x);
    }

    /** One more reference. */
    method Hold(x: Inode)
      modifies x`ref
      ensures x.ref == old(x.ref) + 1 && Snap() == old(Snap()) && (Sound() <==> old(Sound()))
    {
      hide G.Linked, G.Ranked;
      x.ref := x.ref + 1;
      assert Snap() == old(Snap());
    }

    /** The cache part of unlink and rmdir. */
    method Unlink(pin: Inode, dname: string)
      requires Sound() && pin in live
      modifies live`dentries, live`parents
      ensures Sound() && (old(Indexed()) ==> Indexed())
      ensures dname in old(pin.dentries) ==> old(pin.dentries[dname]) in live && Snap() == old(G.Detach(Snap(), pin, dname))
      ensures dname !in old(pin.dentries) ==> Snap() == old(Snap())
    {
      hide G.Linked, G.Ranked, G.Detach;
      if dname in pin.dentries {
        LinkDown(pin, dname);
        G.DetachLinked(Snap(), pin, dname);
        G.DetachRanked(Snap(), rank, pin, dname);
        RemoveDentry(pin, dname, dname);
      }
    }

    /** A name that was not in the cache is found on disk.  The new inode takes over its number in the
        index: if another inode had it, that one stays linked but can no longer be found by number. */
    method LookupMiss(parent: Inode, dname: string, ino: nat) returns (x: Inode)
      requires Sound() && parent in live && dname !in parent.dentries
      modifies this, parent`dentries
      ensures fresh(x) && x.ino == ino && x.ref == 1 && live == old(live) + {x} && inodeMap == old(inodeMap)[ino := x]
      ensures nulls == old(nulls) - {ino}
      ensures Snap() == G.Attach(old(Snap())[x := G.Node(ino, map[], map[])], parent, dname, x)
      ensures Sound() && (Indexed() <==> old(Indexed()) && ino !in old(inodeMap))
    {
      hide G.Linked, G.Ranked, G.Attach;
      x := Create(ino, parent);
      AttachNew(parent, dname, x);
      Hold(x);
    }

    /** The first entry of a new inode. */
    method AttachNew(parent: Inode, dname: string, x: Inode)
      requires G.Linked(Snap()) && G.Ranked(Snap(), rank) && parent in live && x in live && rank[parent] < rank[x]
      requires dname !in parent.dentries && x.parents == map[]
      modifies parent`dentries, x`parents
      ensures Snap() == old(G.Attach(Snap(), parent, dname, x)) && G.Linked(Snap()) && G.Ranked(Snap(), rank)
    {
      hide G.Linked, G.Ranked, G.Attach;
      G.AttachLinked(Snap(), parent, dname, x);
      G.AttachRanked(Snap(), rank, parent, dname, x);
      Attach(parent, dname, x);
    }

    /** The path of an inode: it exists exactly if first parents lead from the inode to a root without parents.
        Its names are those under which the way is listed, from the root down, and lead back to the inode. */
    method MakeInodePath(x: Inode, basedir: string) returns (ok: bool, buf: string)
      requires Sound() && x in live
      ensures ok <==> exists way, keys :: G.Ascends(Snap(), root, x, way, keys)
      ensures forall way, keys :: G.Ascends(Snap(), root, x, way, keys) ==>
                buf == basedir + "/" + G.Joined(G.NamesDown(keys)) && G.Resolve(Snap(), root, G.NamesDown(keys)) == Some(x)
    {
      hide G.Linked, G.Ranked, G.Resolve, G.Joined, G.Chain, G.Ascends, G.NamesDown;
      ok, buf := ClimbUp(x, basedir);
      if ok { var _, _ := G.ChainAscends(Snap(), rank, root, x); }
      forall way, keys | G.Ascends(Snap(), root, x, way, keys) ensures G.Chain(Snap(), rank, root, x) == Some(G.NamesDown(keys)) {
        G.AscendsChain(Snap(), rank, root, x, way, keys);
      }
    }

    /** The recursion, from parent to parent. */
    method ClimbUp(x: Inode, basedir: string) returns (ok: bool, buf: string)
      requires Sound() && x in live
      ensures ok <==> G.Chain(Snap(), rank, root, x).Some?
      ensures ok ==> var names := G.Chain(Snap(), rank, root, x).value;
                     buf == basedir + "/" + G.Joined(names) && G.Resolve(Snap(), root, names) == Some(x)
      decreases rank[x]
    {
      hide G.Linked, G.Ranked, G.Resolve, G.Joined;
      buf := "";
      G.RankDomain(Snap(), rank, x);
      ghost var height: nat := rank[x];
      if x.parents != map[] {
        var k := FirstKey(x.parents.Keys);
        LinkUp(x, k);
        G.ParentRank(Snap(), rank, x, k);
        ok, buf := ClimbUp(x.parents[k], basedir);
        if !ok { return false, buf; }
        G.JoinedSnoc(G.Chain(Snap(), rank, root, x.parents[k]).value, k.name);
        buf := buf + "/" + k.name;
      } else {
        if x != root { return false, buf; }
        G.JoinedNone();
        buf := basedir + "/";
      }
      G.ChainResolves(Snap(), rank, root, x);
      ok := true;
    }
  }

  lemma DropDownNone(g: G.Graph<Inode>, x: Inode)
    ensures G.DropDown(g, x, [], []) == g
  {
  }
}
