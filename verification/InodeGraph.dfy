/** Inodes and their links as values: what each operation on the cache does to the whole graph. */
module InodeGraph {
  import opened Wrappers
  import opened InodeOrder

  datatype Node<N> = Node(ino: nat, parents: map<Key, N>, dentries: map<string, N>)

  type Graph<N> = map<N, Node<N>>

  /** An entry leads to a child that lists the way back. */
  predicate LinkedDown<N>(g: Graph<N>, p: N, d: string)
    requires p in g && d in g[p].dentries
  {
    var c := g[p].dentries[d];
    c in g && Key(d, g[p].ino) in g[c].parents && g[c].parents[Key(d, g[p].ino)] == p
  }

  /** A parent that is listed has that number and lists the child under that name. */
  predicate LinkedUp<N>(g: Graph<N>, c: N, k: Key)
    requires c in g && k in g[c].parents
  {
    var p := g[c].parents[k];
    p in g && g[p].ino == k.ino && k.name in g[p].dentries && g[p].dentries[k.name] == c
  }

  /** A parent lists a child under a name exactly if the child lists the parent under that name. */
  ghost predicate Linked<N>(g: Graph<N>) {
    && (forall p, d {:trigger LinkedDown(g, p, d)} :: p in g && d in g[p].dentries ==> LinkedDown(g, p, d))
    && (forall c, k {:trigger LinkedUp(g, c, k)} :: c in g && k in g[c].parents ==> LinkedUp(g, c, k))
  }

  /** Children rank higher than their parents, so no inode is below itself. */
  ghost predicate Ranked<N>(g: Graph<N>, rank: map<N, nat>) {
    && g.Keys <= rank.Keys
    && forall p, d :: p in g && d in g[p].dentries && g[p].dentries[d] in g ==> rank[p] < rank[g[p].dentries[d]]
  }

  // ---- the operations ----

  function Detach<N(==)>(g: Graph<N>, p: N, d: string): (r: Graph<N>)
    requires p in g && d in g[p].dentries && g[p].dentries[d] in g
    ensures r.Keys == g.Keys
  {
    var c := g[p].dentries[d];
    var h := g[p := g[p].(dentries := g[p].dentries - {d})];
    h[c := h[c].(parents := h[c].parents - {Key(d, g[p].ino)})]
  }

  function Attach<N(==)>(g: Graph<N>, p: N, d: string, c: N): (r: Graph<N>)
    requires p in g && c in g
    ensures r.Keys == g.Keys
  {
    var h := g[p := g[p].(dentries := g[p].dentries[d := c])];
    h[c := h[c].(parents := h[c].parents[Key(d, g[p].ino) := p])]
  }

  /** add_dentry(): whatever was listed there goes first. */
  function AddDentry<N(==)>(g: Graph<N>, p: N, d: string, c: N): (r: Graph<N>)
    requires p in g && c in g
    ensures r.Keys == g.Keys
  {
    Attach(if d in g[p].dentries && g[p].dentries[d] in g then Detach(g, p, d) else g, p, d, c)
  }

  /** The graph without any link to or from x. */
  function Isolate<N(==)>(g: Graph<N>, x: N): (r: Graph<N>)
    ensures r.Keys == g.Keys
  {
    map y | y in g :: IsolatedNode(g[y], y == x, x)
  }

  function IsolatedNode<N(==)>(n: Node<N>, self: bool, x: N): Node<N> {
    if self then Node(n.ino, map[], map[])
    else Node(n.ino, map k | k in n.parents && n.parents[k] != x :: n.parents[k],
                     map d | d in n.dentries && n.dentries[d] != x :: n.dentries[d])
  }

  /** The graph without any link into x: what is left when the loop over its parents is done. */
  function DropUp<N(==)>(g: Graph<N>, x: N): (r: Graph<N>)
    ensures r.Keys == g.Keys
  {
    map y | y in g :: DroppedNode(g[y], y == x, x)
  }

  function DroppedNode<N(==)>(n: Node<N>, self: bool, x: N): Node<N> {
    Node(n.ino, if self then map[] else n.parents, map d | d in n.dentries && n.dentries[d] != x :: n.dentries[d])
  }

  /** Drops an entry, but looks for the way back under another name. */
  function DetachAs<N(==)>(g: Graph<N>, p: N, d: string, e: string): (r: Graph<N>)
    ensures r.Keys == g.Keys
  {
    if p in g && d in g[p].dentries && g[p].dentries[d] in g then
      var c := g[p].dentries[d];
      var h := g[p := g[p].(dentries := g[p].dentries - {d})];
      h[c := h[c].(parents := h[c].parents - {Key(e, g[p].ino)})]
    else g
  }

  /** The loop over the children: each name is freed with the entry it belongs to, and the way back is
      looked for under whatever is then found in its place. */
  function DropDown<N(==)>(g: Graph<N>, x: N, names: seq<string>, found: seq<string>): (r: Graph<N>)
    requires |found| == |names|
    ensures r.Keys == g.Keys
    decreases |names|
  {
    if names == [] then g else DropDown(DetachAs(g, x, names[0], found[0]), x, names[1..], found[1..])
  }

  /** unlink_inode() */
  function Unlinked<N(==)>(g: Graph<N>, x: N, names: seq<string>, found: seq<string>): (r: Graph<N>)
    requires |found| == |names|
    ensures r.Keys == g.Keys
  {
    DropDown(DropUp(g, x), x, names, found)
  }

  /** Entries lead to inodes that are there. */
  ghost predicate Closed<N>(g: Graph<N>) {
    forall p, d :: p in g && d in g[p].dentries ==> g[p].dentries[d] in g
  }

  // ---- links ----

  lemma LinkedClosed<N>(g: Graph<N>)
    requires Linked(g)
    ensures Closed(g)
  {
    forall p, d | p in g && d in g[p].dentries ensures g[p].dentries[d] in g { assert LinkedDown(g, p, d); }
  }

  lemma DetachLinked<N>(g: Graph<N>, p: N, d: string)
    requires Linked(g) && p in g && d in g[p].dentries && g[p].dentries[d] in g
    ensures Linked(Detach(g, p, d))
  {
    var r := Detach(g, p, d);
    assert LinkedDown(g, p, d);
    forall c, k | c in r && k in r[c].parents ensures LinkedUp(r, c, k) { assert LinkedUp(g, c, k); }
    forall q, e | q in r && e in r[q].dentries ensures LinkedDown(r, q, e) { assert LinkedDown(g, q, e); }
  }

  /** The child does not already list another parent under this name and number. */
  predicate NoClash<N(==)>(g: Graph<N>, p: N, d: string, c: N)
    requires p in g && c in g
  {
    Key(d, g[p].ino) in g[c].parents ==> g[c].parents[Key(d, g[p].ino)] == p
  }

  /** Adding an entry at a free place keeps the links consistent exactly if the child may be listed
      there: two inodes with one number as parents of one name would be confused. */
  lemma AttachLinked<N>(g: Graph<N>, p: N, d: string, c: N)
    requires Linked(g) && p in g && c in g && d !in g[p].dentries
    ensures Linked(Attach(g, p, d, c)) <==> NoClash(g, p, d, c)
  {
    var r, key := Attach(g, p, d, c), Key(d, g[p].ino);
    if NoClash(g, p, d, c) {
      forall x, k | x in r && k in r[x].parents ensures LinkedUp(r, x, k) {
        if !(x == c && k == key) { assert LinkedUp(g, x, k); }
      }
      forall q, e | q in r && e in r[q].dentries ensures LinkedDown(r, q, e) {
        if !(q == p && e == d) { assert LinkedDown(g, q, e); }
      }
    } else {
      var q := g[c].parents[key];
      assert LinkedUp(g, c, key);
      assert !LinkedDown(r, q, d);
    }
  }

  // ---- no cycles ----

  lemma DetachRanked<N>(g: Graph<N>, rank: map<N, nat>, p: N, d: string)
    requires Ranked(g, rank) && p in g && d in g[p].dentries && g[p].dentries[d] in g
    ensures Ranked(Detach(g, p, d), rank)
  {
    var r := Detach(g, p, d);
    forall q, e | q in r && e in r[q].dentries && r[q].dentries[e] in r ensures rank[q] < rank[r[q].dentries[e]] {
      assert e in g[q].dentries && g[q].dentries[e] == r[q].dentries[e];
    }
  }

  lemma AttachRanked<N>(g: Graph<N>, rank: map<N, nat>, p: N, d: string, c: N)
    requires Ranked(g, rank) && p in g && c in g && rank[p] < rank[c]
    ensures Ranked(Attach(g, p, d, c), rank)
  {
    var r := Attach(g, p, d, c);
    forall q, e | q in r && e in r[q].dentries && r[q].dentries[e] in r ensures rank[q] < rank[r[q].dentries[e]] {
      if !(q == p && e == d) { assert e in g[q].dentries && g[q].dentries[e] == r[q].dentries[e]; }
    }
  }

  lemma ParentRank<N>(g: Graph<N>, rank: map<N, nat>, x: N, k: Key)
    requires Linked(g) && Ranked(g, rank) && x in g && k in g[x].parents
    ensures g[x].parents[k] in g && rank[g[x].parents[k]] < rank[x]
  {
    assert LinkedUp(g, x, k);
  }

  /** x is v or below it. */
  ghost predicate IsBelow<N>(g: Graph<N>, rank: map<N, nat>, v: N, x: N)
    requires Linked(g) && Ranked(g, rank) && x in g
    decreases rank[x]
  {
    x == v || exists k :: k in g[x].parents && (ParentRank(g, rank, x, k); IsBelow(g, rank, v, g[x].parents[k]))
  }

  /** Moves v and everything below it above u. */
  ghost function Lifted<N>(g: Graph<N>, rank: map<N, nat>, v: N, u: N): map<N, nat>
    requires Linked(g) && Ranked(g, rank) && u in g
  {
    map x | x in g :: if IsBelow(g, rank, v, x) then rank[x] + rank[u] + 1 else rank[x]
  }

  /** A link from u to v can be added without closing a cycle exactly because u is not below v. */
  lemma LiftRanked<N>(g: Graph<N>, rank: map<N, nat>, v: N, u: N)
    requires Linked(g) && Ranked(g, rank) && u in g && v in g && !IsBelow(g, rank, v, u)
    ensures Ranked(g, Lifted(g, rank, v, u)) && Lifted(g, rank, v, u)[u] < Lifted(g, rank, v, u)[v]
  {
    var r := Lifted(g, rank, v, u);
    forall p, d | p in g && d in g[p].dentries && g[p].dentries[d] in g ensures r[p] < r[g[p].dentries[d]] {
      assert LinkedDown(g, p, d);
      var c := g[p].dentries[d];
      if IsBelow(g, rank, v, p) {
        assert IsBelow(g, rank, v, g[c].parents[Key(d, g[p].ino)]);
        assert IsBelow(g, rank, v, c);
      }
    }
  }

  // ---- unlinking an inode ----

  /** Dropping a link into x changes nothing once all of them are gone. */
  lemma DetachDropUp<N>(g: Graph<N>, p: N, d: string, x: N)
    requires Linked(g) && p in g && d in g[p].dentries && g[p].dentries[d] == x && x in g
    ensures DropUp(Detach(g, p, d), x) == DropUp(g, x)
  {
    var r := Detach(g, p, d);
    forall y | y in g ensures DroppedNode(r[y], y == x, x) == DroppedNode(g[y], y == x, x) {
      assert DroppedNode(r[y], y == x, x).dentries == DroppedNode(g[y], y == x, x).dentries;
    }
  }

  /** An inode that lists no parents is listed by none. */
  lemma OrphanDropUp<N>(g: Graph<N>, x: N)
    requires Linked(g) && x in g && g[x].parents == map[]
    ensures DropUp(g, x) == g
  {
    forall y | y in g ensures DroppedNode(g[y], y == x, x) == g[y] {
      forall d | d in g[y].dentries ensures g[y].dentries[d] != x { assert LinkedDown(g, y, d); }
      assert DroppedNode(g[y], y == x, x).dentries == g[y].dentries;
    }
  }

  /** An inode without entries is unlinked as it should be. */
  lemma BareUnlinked<N>(g: Graph<N>, x: N)
    requires Linked(g) && x in g && g[x].dentries == map[]
    ensures DropUp(g, x) == Isolate(g, x)
  {
    forall y | y in g ensures DroppedNode(g[y], y == x, x) == IsolatedNode(g[y], y == x, x) {
      if y != x {
        forall k | k in g[y].parents ensures g[y].parents[k] != x { assert LinkedUp(g, y, k); }
        assert IsolatedNode(g[y], false, x).parents == g[y].parents;
      }
    }
  }

  lemma {:induction false} DropDownClosed<N>(g: Graph<N>, x: N, names: seq<string>, found: seq<string>)
    requires |found| == |names| && Closed(g)
    ensures Closed(DropDown(g, x, names, found))
    decreases |names|
  {
    if names != [] { DropDownClosed(DetachAs(g, x, names[0], found[0]), x, names[1..], found[1..]); }
  }

  lemma {:induction false} DropDownSnoc<N>(g: Graph<N>, x: N, names: seq<string>, found: seq<string>, d: string, e: string)
    requires |found| == |names|
    ensures DropDown(g, x, names + [d], found + [e]) == DetachAs(DropDown(g, x, names, found), x, d, e)
    decreases |names|
  {
    if names == [] {
      assert (names + [d])[1..] == [] && (found + [e])[1..] == [];
    } else {
      assert (names + [d])[1..] == names[1..] + [d] && (found + [e])[1..] == found[1..] + [e];
      DropDownSnoc(DetachAs(g, x, names[0], found[0]), x, names[1..], found[1..], d, e);
    }
  }

  lemma UnlinkedClosed<N>(g: Graph<N>, x: N, names: seq<string>, found: seq<string>)
    requires |found| == |names| && Linked(g)
    ensures Closed(Unlinked(g, x, names, found))
  {
    LinkedClosed(g);
    DropDownClosed(DropUp(g, x), x, names, found);
  }

  /** Dropping the links into an inode leaves its own entries alone. */
  lemma DropUpEntries<N>(g: Graph<N>, rank: map<N, nat>, x: N)
    requires Linked(g) && Ranked(g, rank) && x in g
    ensures DropUp(g, x)[x].dentries == g[x].dentries
  {
    forall d | d in g[x].dentries ensures g[x].dentries[d] != x { EntryRank(g, rank, x, d); }
    assert DroppedNode(g[x], true, x).dentries == g[x].dentries;
  }

  /** The names of an inode's entries, each once, in some order. */
  ghost predicate Lists<N>(names: seq<string>, dentries: map<string, N>) {
    && (forall d :: d in names <==> d in dentries)
    && (forall i, j :: 0 <= i < j < |names| ==> names[i] != names[j])
  }

  /** As long as what is found in place of a name is never a name by which the child c lists x, c goes on
      listing x. */
  lemma {:induction false} DropDownKeeps<N>(g: Graph<N>, x: N, names: seq<string>, found: seq<string>, c: N, k: Key)
    requires |found| == |names| && x in g && c in g && k in g[c].parents
    requires forall i :: 0 <= i < |found| ==> Key(found[i], g[x].ino) != k
    ensures var r := DropDown(g, x, names, found);
            k in r[c].parents && r[c].parents[k] == g[c].parents[k]
    decreases |names|
  {
    if names != [] {
      assert Key(found[0], g[x].ino) != k;
      var h := DetachAs(g, x, names[0], found[0]);
      assert h[x].ino == g[x].ino;
      forall i | 0 <= i < |found[1..]| ensures Key(found[1..][i], h[x].ino) != k { assert found[1..][i] == found[i + 1]; }
      DropDownKeeps(h, x, names[1..], found[1..], c, k);
    }
  }

  /** The names of a directory can be listed. */
  lemma {:induction false} ListNames<N>(dentries: map<string, N>, todo: set<string>) returns (names: seq<string>)
    requires todo <= dentries.Keys
    ensures (forall d :: d in names <==> d in todo) && forall i, j :: 0 <= i < j < |names| ==> names[i] != names[j]
    decreases todo
  {
    if todo == {} { return []; }
    var d :| d in todo;
    var tail := ListNames(dentries, todo - {d});
    names := [d] + tail;
  }

  /** A child of x may go on listing x under any of its names, whatever else is in the cache. */
  lemma WayBackSurvives<N>(g: Graph<N>, rank: map<N, nat>, x: N, d: string) returns (names: seq<string>, found: seq<string>)
    requires Linked(g) && Ranked(g, rank) && x in g && d in g[x].dentries
    ensures Lists(names, g[x].dentries) && |found| == |names|
    ensures var r, c := Unlinked(g, x, names, found), g[x].dentries[d];
            c in r && c != x && Key(d, g[x].ino) in r[c].parents && r[c].parents[Key(d, g[x].ino)] == x
  {
    hide Ranked, DropDown;
    var c, k := g[x].dentries[d], Key(d, g[x].ino);
    assert LinkedDown(g, x, d);
    EntryRank(g, rank, x, d);
    names := ListNames(g[x].dentries, g[x].dentries.Keys);
    found := seq(|names|, _ => d + "?");
    assert forall i :: 0 <= i < |found| ==> |found[i]| == |d| + 1;
    DropDownKeeps(DropUp(g, x), x, names, found, c, k);
  }

  lemma EntryRank<N>(g: Graph<N>, rank: map<N, nat>, p: N, d: string)
    requires Linked(g) && Ranked(g, rank) && p in g && d in g[p].dentries
    ensures g[p].dentries[d] in g && rank[p] < rank[g[p].dentries[d]]
  {
    assert LinkedDown(g, p, d);
  }

  /** Unlinking is sure to leave the graph without any link of x, whatever is found in place of the names
      that were freed, exactly if x has no entries. */
  lemma UnlinkExact<N>(g: Graph<N>, rank: map<N, nat>, x: N)
    requires Linked(g) && Ranked(g, rank) && x in g
    ensures g[x].dentries == map[] <==>
              forall names, found | Lists(names, g[x].dentries) && |found| == |names| ::
                Unlinked(g, x, names, found) == Isolate(g, x)
  {
    hide Ranked, DropDown, DropUp, Isolate, Linked;
    if g[x].dentries == map[] {
      forall names, found | Lists(names, g[x].dentries) && |found| == |names|
        ensures Unlinked(g, x, names, found) == Isolate(g, x)
      {
        BareNames(g, x, names, found);
        BareUnlinked(g, x);
      }
    } else {
      var d :| d in g[x].dentries;
      var names, found := WayBackSurvives(g, rank, x, d);
      NotMentioned(g, x, g[x].dentries[d], Key(d, g[x].ino));
    }
  }

  lemma NoneListed(names: seq<string>)
    ensures (forall d :: d !in names) ==> names == []
  {
    if names != [] { assert names[0] in names; }
  }

  lemma BareNames<N>(g: Graph<N>, x: N, names: seq<string>, found: seq<string>)
    requires x in g && g[x].dentries == map[] && Lists(names, g[x].dentries) && |found| == |names|
    ensures Unlinked(g, x, names, found) == DropUp(g, x)
  {
    NoneListed(names);
  }

  lemma NotMentioned<N>(g: Graph<N>, x: N, c: N, k: Key)
    requires c in g && c != x
    ensures k in Isolate(g, x)[c].parents ==> Isolate(g, x)[c].parents[k] != x
  {
  }

  /** A re-stat that finds another number under a name: the links stay consistent exactly if the inode has
      no entries, whose ways back carry the old number. */
  lemma RenumberLinked<N>(g: Graph<N>, x: N, n: nat)
    requires Linked(g) && x in g && n != g[x].ino
    ensures Linked(g[x := g[x].(ino := n)]) <==> g[x].dentries == map[]
  {
    var r := g[x := g[x].(ino := n)];
    if g[x].dentries == map[] {
      forall c, k | c in r && k in r[c].parents ensures LinkedUp(r, c, k) { assert LinkedUp(g, c, k); }
      forall q, e | q in r && e in r[q].dentries ensures LinkedDown(r, q, e) { assert LinkedDown(g, q, e); }
    } else {
      var d :| d in g[x].dentries;
      assert LinkedDown(g, x, d);
      assert !LinkedUp(r, g[x].dentries[d], Key(d, g[x].ino));
    }
  }

  lemma IsolateAlone<N>(g: Graph<N>, x: N)
    requires x in g
    ensures Isolate(g, x)[x].parents == map[] && Isolate(g, x)[x].dentries == map[]
  {
  }

  lemma IsolateLinked<N>(g: Graph<N>, x: N)
    requires Linked(g)
    ensures Linked(Isolate(g, x))
  {
    var r := Isolate(g, x);
    forall c, k | c in r && k in r[c].parents ensures LinkedUp(r, c, k) { assert LinkedUp(g, c, k); }
    forall q, e | q in r && e in r[q].dentries ensures LinkedDown(r, q, e) { assert LinkedDown(g, q, e); }
  }

  lemma IsolateRanked<N>(g: Graph<N>, rank: map<N, nat>, x: N)
    requires Ranked(g, rank)
    ensures Ranked(Isolate(g, x), rank)
  {
    var r := Isolate(g, x);
    forall q, e | q in r && e in r[q].dentries && r[q].dentries[e] in r ensures rank[q] < rank[r[q].dentries[e]] {
      assert e in g[q].dentries && g[q].dentries[e] == r[q].dentries[e];
    }
  }

  /** Nothing but itself is below an inode without links. */
  lemma {:induction false} AloneBelow<N>(g: Graph<N>, rank: map<N, nat>, x: N, y: N)
    requires Linked(g) && Ranked(g, rank) && x in g && y in g && g[x].dentries == map[] && y != x
    ensures !IsBelow(g, rank, x, y)
    decreases rank[y]
  {
    forall k | k in g[y].parents
      ensures g[y].parents[k] in g && rank[g[y].parents[k]] < rank[y] && !IsBelow(g, rank, x, g[y].parents[k])
    {
      ParentRank(g, rank, y, k);
      assert LinkedUp(g, y, k);
      AloneBelow(g, rank, x, g[y].parents[k]);
    }
  }

  /** An inode without links can go. */
  lemma RemoveAlone<N>(g: Graph<N>, rank: map<N, nat>, x: N)
    requires Linked(g) && Ranked(g, rank) && x in g && g[x].parents == map[] && g[x].dentries == map[]
    ensures Linked(g - {x}) && Ranked(g - {x}, rank)
    ensures forall y, d :: y in g - {x} && d in (g - {x})[y].dentries ==> (g - {x})[y].dentries[d] != x
    ensures forall y, k :: y in g - {x} && k in (g - {x})[y].parents ==> (g - {x})[y].parents[k] != x
  {
    var r := g - {x};
    forall y, d | y in r && d in r[y].dentries ensures r[y].dentries[d] != x && LinkedDown(r, y, d) {
      assert LinkedDown(g, y, d);
    }
    forall y, k | y in r && k in r[y].parents ensures r[y].parents[k] != x && LinkedUp(r, y, k) {
      assert LinkedUp(g, y, k);
    }
  }

  /** A new inode without links can come. */
  lemma AddAlone<N>(g: Graph<N>, rank: map<N, nat>, x: N, ino: nat, n: nat)
    requires Linked(g) && Ranked(g, rank) && x !in g
    ensures Linked(g[x := Node(ino, map[], map[])]) && Ranked(g[x := Node(ino, map[], map[])], rank[x := n])
  {
    var r, s := g[x := Node(ino, map[], map[])], rank[x := n];
    forall c, k | c in r && k in r[c].parents ensures LinkedUp(r, c, k) { assert LinkedUp(g, c, k); }
    forall q, e | q in r && e in r[q].dentries ensures LinkedDown(r, q, e) { assert LinkedDown(g, q, e); }
    forall q, e | q in r && e in r[q].dentries && r[q].dentries[e] in r ensures s[q] < s[r[q].dentries[e]] {
      assert LinkedDown(g, q, e);
      assert rank[q] < rank[g[q].dentries[e]];
    }
  }

  /** A rank orders everything that is below something. */
  lemma {:induction false} BelowRank<N>(g: Graph<N>, rank: map<N, nat>, r: map<N, nat>, v: N, x: N)
    requires Linked(g) && Ranked(g, rank) && Ranked(g, r) && v in g && x in g && IsBelow(g, rank, v, x)
    ensures r[v] <= r[x]
    decreases rank[x]
  {
    if x != v {
      var k :| k in g[x].parents && (ParentRank(g, rank, x, k); IsBelow(g, rank, v, g[x].parents[k]));
      ParentRank(g, rank, x, k);
      ParentRank(g, r, x, k);
      BelowRank(g, rank, r, v, g[x].parents[k]);
    }
  }

  /** ... and if u is below v then the link does close a cycle: no rank fits any more. */
  lemma CycleUnranked<N>(g: Graph<N>, rank: map<N, nat>, v: N, u: N, d: string, r: map<N, nat>)
    requires Linked(g) && Ranked(g, rank) && u in g && v in g && IsBelow(g, rank, v, u) && d !in g[u].dentries
    ensures !Ranked(Attach(g, u, d, v), r)
  {
    var h := Attach(g, u, d, v);
    if Ranked(h, r) {
      forall p, e | p in g && e in g[p].dentries && g[p].dentries[e] in g ensures r[p] < r[g[p].dentries[e]] {
        assert e in h[p].dentries && h[p].dentries[e] == g[p].dentries[e];
      }
      assert h[u].dentries[d] == v;
      BelowRank(g, rank, r, v, u);
    }
  }

  // ---- paths ----

  /** The names on the way from the root along first parents, if that is where the way ends. */
  ghost function Chain<N>(g: Graph<N>, rank: map<N, nat>, root: N, x: N): Option<seq<string>>
    requires Linked(g) && Ranked(g, rank) && x in g
    decreases rank[x]
  {
    if g[x].parents == map[] then (if x == root then Some([]) else None)
    else
      var k := First(g[x].parents.Keys);
      ParentRank(g, rank, x, k);
      var up := Chain(g, rank, root, g[x].parents[k]);
      if up.None? then None else Some(up.value + [k.name])
  }

  /** Follows names down through the directories. */
  function Resolve<N>(g: Graph<N>, from: N, names: seq<string>): Option<N>
    decreases |names|
  {
    if names == [] then Some(from)
    else
      var up := Resolve(g, from, names[..|names| - 1]);
      if up.Some? && up.value in g && names[|names| - 1] in g[up.value].dentries
      then Some(g[up.value].dentries[names[|names| - 1]])
      else None
  }

  /** The path of an inode leads to that inode. */
  lemma {:induction false} ChainResolves<N>(g: Graph<N>, rank: map<N, nat>, root: N, x: N)
    requires Linked(g) && Ranked(g, rank) && x in g && Chain(g, rank, root, x).Some?
    ensures Resolve(g, root, Chain(g, rank, root, x).value) == Some(x)
    decreases rank[x]
  {
    if g[x].parents != map[] {
      var k := First(g[x].parents.Keys);
      ParentRank(g, rank, x, k);
      assert LinkedUp(g, x, k);
      ChainResolves(g, rank, root, g[x].parents[k]);
      var names := Chain(g, rank, root, x).value;
      assert names[..|names| - 1] == Chain(g, rank, root, g[x].parents[k]).value;
    }
  }

  /** One step up: from `a`, by its first parent, to `b`. */
  predicate StepUp<N(==)>(g: Graph<N>, a: N, k: Key, b: N) {
    a in g && k in g[a].parents && (forall j :: j in g[a].parents ==> j == k || Less(k, j)) && g[a].parents[k] == b
  }

  /** `way` leads from `x` up by first parents, under `keys`, and ends at the root, which has none. */
  predicate Ascends<N(==)>(g: Graph<N>, root: N, x: N, way: seq<N>, keys: seq<Key>) {
    && |way| == |keys| + 1 && way[0] == x && way[|keys|] == root && root in g && g[root].parents == map[]
    && forall i :: 0 <= i < |keys| ==> StepUp(g, way[i], keys[i], way[i + 1])
  }

  /** The names under these keys, from the root down. */
  function NamesDown(keys: seq<Key>): seq<string> {
    if keys == [] then [] else NamesDown(keys[1..]) + [keys[0].name]
  }

  lemma {:induction false} ChainAscends<N>(g: Graph<N>, rank: map<N, nat>, root: N, x: N) returns (way: seq<N>, keys: seq<Key>)
    requires Linked(g) && Ranked(g, rank) && x in g && Chain(g, rank, root, x).Some?
    ensures Ascends(g, root, x, way, keys)
    decreases rank[x]
  {
    if g[x].parents == map[] {
      way, keys := [x], [];
    } else {
      var k := First(g[x].parents.Keys);
      ParentRank(g, rank, x, k);
      assert StepUp(g, x, k, g[x].parents[k]);
      var up, above := ChainAscends(g, rank, root, g[x].parents[k]);
      way, keys := [x] + up, [k] + above;
      forall i | 0 <= i < |keys| ensures StepUp(g, way[i], keys[i], way[i + 1]) {
        if i > 0 { assert StepUp(g, up[i - 1], above[i - 1], up[i]); }
      }
    }
  }

  lemma {:induction false} AscendsChain<N>(g: Graph<N>, rank: map<N, nat>, root: N, x: N, way: seq<N>, keys: seq<Key>)
    requires Linked(g) && Ranked(g, rank) && x in g && Ascends(g, root, x, way, keys)
    ensures Chain(g, rank, root, x) == Some(NamesDown(keys))
    decreases |keys|
  {
    if keys != [] {
      assert StepUp(g, way[0], keys[0], way[1]);
      FirstUnique(g[x].parents.Keys, keys[0], First(g[x].parents.Keys));
      ParentRank(g, rank, x, keys[0]);
      forall i | 0 <= i < |keys[1..]| ensures StepUp(g, way[1..][i], keys[1..][i], way[1..][i + 1]) {
        assert StepUp(g, way[i + 1], keys[i + 1], way[i + 2]);
      }
      AscendsChain(g, rank, root, way[1], way[1..], keys[1..]);
    }
  }

  /** Each name behind a slash. */
  function Joined(names: seq<string>): string {
    if names == [] then [] else "/" + names[0] + Joined(names[1..])
  }

  lemma JoinedNone()
    ensures Joined([]) == []
  {
  }

  predicate SlashFree(names: seq<string>) {
    forall i :: 0 <= i < |names| ==> '/' !in names[i]
  }

  lemma {:induction false} JoinedSnoc(names: seq<string>, n: string)
    ensures Joined(names + [n]) == Joined(names) + "/" + n
    decreases |names|
  {
    if names == [] {
      assert [n][1..] == [];
    } else {
      assert (names + [n])[1..] == names[1..] + [n];
      JoinedSnoc(names[1..], n);
    }
  }

  /** Different ways give different paths, as names have no slash in them. */
  lemma {:induction false} JoinedInjective(a: seq<string>, b: seq<string>)
    requires SlashFree(a) && SlashFree(b) && Joined(a) == Joined(b)
    ensures a == b
    decreases |a|
  {
    if a != [] && b != [] {
      var s := Joined(a);
      assert s == "/" + a[0] + Joined(a[1..]) == "/" + b[0] + Joined(b[1..]);
      assert s[1..] == a[0] + Joined(a[1..]) == b[0] + Joined(b[1..]);
      FirstNameEqual(a[0], Joined(a[1..]), b[0], Joined(b[1..]));
      assert s[1 + |a[0]|..] == Joined(a[1..]) == Joined(b[1..]);
      JoinedInjective(a[1..], b[1..]);
      assert a == [a[0]] + a[1..] && b == [b[0]] + b[1..];
    }
  }

  lemma FirstNameEqual(a: string, s: string, b: string, t: string)
    requires '/' !in a && '/' !in b && a + s == b + t
    requires (s == [] || s[0] == '/') && (t == [] || t[0] == '/')
    ensures a == b
  {
    var x := a + s;
    assert x[..|a|] == a && (b + t)[..|b|] == b;
  }

  /** Adding an entry in place of whatever was there keeps the links consistent exactly if the child may be
      listed there. */
  lemma AddDentryExact<N>(g: Graph<N>, p: N, d: string, c: N)
    requires Linked(g) && p in g && c in g
    ensures Linked(AddDentry(g, p, d, c)) <==> NoClash(g, p, d, c)
  {
    hide Attach, Linked;
    if d in g[p].dentries {
      LinkedClosed(g);
      DetachLinked(g, p, d);
      DetachClash(g, p, d, c);
      AttachLinked(Detach(g, p, d), p, d, c);
    } else {
      AttachLinked(g, p, d, c);
    }
  }

  lemma DetachClash<N>(g: Graph<N>, p: N, d: string, c: N)
    requires Linked(g) && p in g && c in g && d in g[p].dentries && g[p].dentries[d] in g
    ensures d !in Detach(g, p, d)[p].dentries
    ensures NoClash(Detach(g, p, d), p, d, c) <==> NoClash(g, p, d, c)
  {
    assert LinkedDown(g, p, d);
  }

  lemma AddDentryRanked<N>(g: Graph<N>, rank: map<N, nat>, p: N, d: string, c: N)
    requires Ranked(g, rank) && p in g && c in g && rank[p] < rank[c]
    ensures Ranked(AddDentry(g, p, d, c), rank)
  {
    hide Attach, Detach, Ranked;
    RankDomain(g, rank, p);
    if d in g[p].dentries && g[p].dentries[d] in g {
      DetachRanked(g, rank, p, d);
      AttachRanked(Detach(g, p, d), rank, p, d, c);
    } else {
      AttachRanked(g, rank, p, d, c);
    }
  }

  lemma RenamedRanked<N>(g: Graph<N>, rank: map<N, nat>, p: N, d: string, p': N, d': string)
    requires Ranked(g, rank) && p in g && p' in g && d in g[p].dentries && g[p].dentries[d] in g
    requires rank[p'] < rank[g[p].dentries[d]]
    ensures Ranked(Renamed(g, p, d, p', d'), rank)
  {
    hide AddDentry, Detach, Ranked;
    AddDentryEntries(g, p', d', g[p].dentries[d], p, d);
    AddDentryRanked(g, rank, p', d', g[p].dentries[d]);
    DetachRanked(AddDentry(g, p', d', g[p].dentries[d]), rank, p, d);
  }

  lemma RankDomain<N>(g: Graph<N>, rank: map<N, nat>, x: N)
    requires Ranked(g, rank) && x in g
    ensures x in rank
  {
  }

  /** Only the one entry changes. */
  lemma AddDentryEntries<N>(g: Graph<N>, p: N, d: string, c: N, q: N, e: string)
    requires p in g && c in g && q in g
    ensures var r := AddDentry(g, p, d, c);
            if q == p && e == d then e in r[q].dentries && r[q].dentries[e] == c
            else (e in r[q].dentries <==> e in g[q].dentries) && (e in g[q].dentries ==> r[q].dentries[e] == g[q].dentries[e])
  {
  }

  lemma DetachEntries<N>(g: Graph<N>, p: N, d: string, q: N, e: string)
    requires p in g && d in g[p].dentries && g[p].dentries[d] in g && q in g
    ensures var r := Detach(g, p, d);
            if q == p && e == d then e !in r[q].dentries
            else (e in r[q].dentries <==> e in g[q].dentries) && (e in g[q].dentries ==> r[q].dentries[e] == g[q].dentries[e])
  {
  }

  /** The new entry first, then the old one goes. */
  function Renamed<N(==)>(g: Graph<N>, p: N, d: string, p': N, d': string): (r: Graph<N>)
    requires p in g && p' in g && d in g[p].dentries && g[p].dentries[d] in g
  {
    var c := g[p].dentries[d];
    AddDentryEntries(g, p', d', c, p, d);
    Detach(AddDentry(g, p', d', c), p, d)
  }

  /** What a rename leaves of every entry: the old name is gone, the new one leads to the inode, all
      others are as they were.  Renaming an entry to itself drops it. */
  lemma RenamedEntries<N>(g: Graph<N>, p: N, d: string, p': N, d': string, q: N, e: string)
    requires p in g && p' in g && d in g[p].dentries && g[p].dentries[d] in g && q in g
    ensures var r := Renamed(g, p, d, p', d');
            q in r &&
            if q == p && e == d then e !in r[q].dentries
            else if q == p' && e == d' then e in r[q].dentries && r[q].dentries[e] == g[p].dentries[d]
            else (e in r[q].dentries <==> e in g[q].dentries) && (e in g[q].dentries ==> r[q].dentries[e] == g[q].dentries[e])
  {
    hide AddDentry, Detach;
    var c := g[p].dentries[d];
    AddDentryEntries(g, p', d', c, p, d);
    AddDentryEntries(g, p', d', c, q, e);
    DetachEntries(AddDentry(g, p', d', c), p, d, q, e);
  }

  /** A rename keeps the links consistent exactly if the inode may be listed at its new place. */
  lemma RenamedExact<N>(g: Graph<N>, p: N, d: string, p': N, d': string)
    requires Linked(g) && p in g && p' in g && d in g[p].dentries && g[p].dentries[d] in g
    ensures Linked(Renamed(g, p, d, p', d')) <==> NoClash(g, p', d', g[p].dentries[d])
  {
    hide AddDentry, Detach, Linked;
    var c := g[p].dentries[d];
    if NoClash(g, p', d', c) {
      AddDentryExact(g, p', d', c);
      AddDentryEntries(g, p', d', c, p, d);
      DetachLinked(AddDentry(g, p', d', c), p, d);
    } else {
      RenamedClash(g, p, d, p', d');
    }
  }

  lemma RenamedClash<N>(g: Graph<N>, p: N, d: string, p': N, d': string)
    requires Linked(g) && p in g && p' in g && d in g[p].dentries && g[p].dentries[d] in g
    requires !NoClash(g, p', d', g[p].dentries[d])
    ensures !Linked(Renamed(g, p, d, p', d'))
  {
    hide Renamed;
    var c, key := g[p].dentries[d], Key(d', g[p'].ino);
    var q, r := g[c].parents[key], Renamed(g, p, d, p', d');
    assert LinkedUp(g, c, key) && LinkedDown(g, p, d);
    RenamedEntries(g, p, d, p', d', q, d');
    RenamedEntries(g, p, d, p', d', p', d');
    RenamedParents(g, p, d, p', d');
    if q == p && d' == d {
      assert !LinkedDown(r, p', d');
    } else {
      assert !LinkedDown(r, q, d');
    }
  }

  lemma AddDentryParents<N>(g: Graph<N>, p: N, d: string, c: N)
    requires p in g && c in g
    ensures var r := AddDentry(g, p, d, c);
            && r[c].parents == g[c].parents[Key(d, g[p].ino) := p]
            && forall q :: q in g ==> r[q].ino == g[q].ino
  {
    assert g[c].parents[Key(d, g[p].ino) := p] == (g[c].parents - {Key(d, g[p].ino)})[Key(d, g[p].ino) := p];
  }

  /** The inode lists its new place instead of its old one. */
  lemma RenamedParents<N>(g: Graph<N>, p: N, d: string, p': N, d': string)
    requires p in g && p' in g && d in g[p].dentries && g[p].dentries[d] in g
    ensures var c, r := g[p].dentries[d], Renamed(g, p, d, p', d');
            && c in r && p' in r && r[c].parents == g[c].parents[Key(d', g[p'].ino) := p'] - {Key(d, g[p].ino)}
            && forall q :: q in g ==> q in r && r[q].ino == g[q].ino
  {
    hide AddDentry;
    var c := g[p].dentries[d];
    AddDentryEntries(g, p', d', c, p, d);
    AddDentryParents(g, p', d', c);
  }
}
