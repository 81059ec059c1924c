/** The order of the keys under which an inode lists its parents: by name, then by inode number. */
module InodeOrder {

  datatype Key = Key(name: string, ino: nat)

  predicate NameLess(a: string, b: string)
    decreases |a|
  {
    if b == [] then false
    else if a == [] then true
    else a[0] < b[0] || (a[0] == b[0] && NameLess(a[1..], b[1..]))
  }

  predicate Less(j: Key, k: Key) {
    NameLess(j.name, k.name) || (j.name == k.name && j.ino < k.ino)
  }

  lemma {:induction false} NameTotal(a: string, b: string)
    ensures NameLess(a, b) || a == b || NameLess(b, a)
    ensures !(NameLess(a, b) && NameLess(b, a)) && !NameLess(a, a)
    decreases |a|
  {
    if a != [] {
      NameTotal(a[1..], a[1..]);
      if b != [] {
        NameTotal(a[1..], b[1..]);
        if a[0] == b[0] && a[1..] == b[1..] { assert a == [a[0]] + a[1..] == b; }
      }
    }
  }

  lemma {:induction false} NameTransitive(a: string, b: string, c: string)
    requires NameLess(a, b) && NameLess(b, c)
    ensures NameLess(a, c)
    decreases |a|
  {
    if a != [] && a[0] == b[0] == c[0] { NameTransitive(a[1..], b[1..], c[1..]); }
  }

  predicate IsFirst(keys: set<Key>, k: Key) {
    k in keys && forall j :: j in keys ==> j == k || Less(k, j)
  }

  lemma FirstUnique(keys: set<Key>, j: Key, k: Key)
    requires IsFirst(keys, j) && IsFirst(keys, k)
    ensures j == k
  {
    NameTotal(j.name, k.name);
  }

  lemma {:induction false} FirstExists(keys: set<Key>)
    requires keys != {}
    ensures exists k :: IsFirst(keys, k)
    decreases keys
  {
    var j :| j in keys;
    var rest := keys - {j};
    if rest == {} {
      assert keys == {j};
      assert IsFirst(keys, j);
    } else {
      FirstExists(rest);
      var k :| IsFirst(rest, k);
      NameTotal(j.name, k.name);
      if Less(j, k) {
        forall i | i in keys ensures i == j || Less(j, i) {
          if i != j && i != k { LessTransitive(j, k, i); }
        }
        assert IsFirst(keys, j);
      } else {
        assert IsFirst(keys, k);
      }
    }
  }

  ghost function First(keys: set<Key>): (k: Key)
    requires keys != {}
    ensures IsFirst(keys, k)
  {
    FirstExists(keys);
    var k :| IsFirst(keys, k);
    k
  }

  /** The beginning of an ordered map. */
  method FirstKey(keys: set<Key>) returns (k: Key)
    requires keys != {}
    ensures k == First(keys)
  {
    k :| k in keys;
    var rest := keys - {k};
    while rest != {}
      invariant k in keys && rest <= keys && k !in rest
      invariant forall j :: j in keys - rest ==> j == k || Less(k, j)
      decreases rest
    {
      var j :| j in rest;
      rest := rest - {j};
      NameTotal(j.name, k.name);
      if Less(j, k) {
        forall i | i in keys - rest ensures i == j || Less(j, i) {
          if i != j && i != k { LessTransitive(j, k, i); }
        }
        k := j;
      }
    }
    FirstUnique(keys, k, First(keys));
  }

  lemma LessTransitive(i: Key, j: Key, k: Key)
    requires Less(i, j) && Less(j, k)
    ensures Less(i, k)
  {
    if NameLess(i.name, j.name) && NameLess(j.name, k.name) { NameTransitive(i.name, j.name, k.name); }
  }
}
