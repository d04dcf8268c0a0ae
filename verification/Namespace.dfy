/** The namespace: which directory names which object, free of blocks and bitmaps. */
module Namespace {
  import opened Ufs
  import opened Storage
  import opened Objects

  predicate GoodName(name: Name) {
    0 < |name| < DIR_ENT_NAME_SIZE && name != "." && name != ".."
  }

  ghost predicate UniqueNames(es: seq<DirEnt>) {
    forall e, f :: 0 <= e < f < |es| ==> es[e].name != es[f].name
  }

  /** Entry `e` of directory `n` names an existing object other than the root.  `at` records that this is
      its only name, `rank` that it lies below `n`. */
  ghost predicate GoodEntry(N: map<int, Node>, at: map<int, Loc>, rank: map<int, nat>, n: int, e: int)
    requires n in N && N[n].DirNode? && 0 <= e < |N[n].entries|
  {
    var ent := N[n].entries[e];
    && GoodName(ent.name)
    && ent.inum in N && ent.inum != 0
    && ent.inum in at && at[ent.inum] == Loc(n, e)
    && n in rank && ent.inum in rank && rank[n] < rank[ent.inum]
    && (N[ent.inum].DirNode? ==> N[ent.inum].parent == n)
  }

  /** The recorded name of `m` is an entry for `m`. */
  ghost predicate NamedAt(N: map<int, Node>, at: map<int, Loc>, m: int) {
    && m in at
    && at[m].inum in N && N[at[m].inum].DirNode?
    && 0 <= at[m].slot < |N[at[m].inum].entries|
    && N[at[m].inum].entries[at[m].slot].inum == m
  }

  /** The names form a tree rooted at inode 0. */
  ghost predicate Named(N: map<int, Node>, at: map<int, Loc>, rank: map<int, nat>) {
    && 0 in N && N[0].DirNode? && N[0].parent == 0
    && N.Keys <= rank.Keys
    && (forall n :: n in N ==> n >= 0)
    && (forall n :: n in N && N[n].DirNode? ==> UniqueNames(N[n].entries))
    && (forall n, e :: n in N && N[n].DirNode? && 0 <= e < |N[n].entries| ==> GoodEntry(N, at, rank, n, e))
    && (forall m :: m in N && m != 0 ==> NamedAt(N, at, m))
  }

  ghost predicate Tree(N: map<int, Node>) {
    exists at, rank :: Named(N, at, rank)
  }

  /** The position of `name` among the entries, or -1. */
  ghost function Find(es: seq<DirEnt>, name: Name): (e: int)
    ensures -1 <= e < |es|
    ensures e >= 0 ==> es[e].name == name
    ensures forall f :: 0 <= f < e ==> es[f].name != name
    ensures e < 0 ==> forall f :: 0 <= f < |es| ==> es[f].name != name
  {
    if es == [] then -1
    else if es[0].name == name then 0
    else
      var e := Find(es[1..], name);
      if e < 0 then -1 else e + 1
  }

  /** What name `name` means in directory `n`, dots included. */
  ghost function Lookup(N: map<int, Node>, n: int, name: Name): int
  {
    if n !in N || !N[n].DirNode? then -EINVALIDINODE
    else if name == "." then n
    else if name == ".." then N[n].parent
    else
      var e := Find(N[n].entries, name);
      if e < 0 then -ENOTFOUND else N[n].entries[e].inum
  }

  /** A lookup ends at an object, or says whether it is a name that is missing or a directory. */
  lemma LookupIn(N: map<int, Node>, n: int, name: Name)
    requires Tree(N)
    ensures var r := Lookup(N, n, name);
            && (r == -EINVALIDINODE <==> n !in N || !N[n].DirNode?)
            && (r in N || r == -ENOTFOUND || r == -EINVALIDINODE)
            && (r in N ==> r >= 0)
            && (n in N && N[n].DirNode? && name in [".", ".."] ==> r in N)
  {
    var at: map<int, Loc>, rank: map<int, nat> :| Named(N, at, rank);
    if n in N && N[n].DirNode? {
      if n != 0 { assert NamedAt(N, at, n); assert GoodEntry(N, at, rank, at[n].inum, at[n].slot); }
      var e := Find(N[n].entries, name);
      assert e >= 0 ==> GoodEntry(N, at, rank, n, e);
    }
  }

  /** A new object `i` holding `node` is entered into directory `n`. */
  ghost function Entered(N: map<int, Node>, n: int, name: Name, i: int, node: Node): map<int, Node>
    requires n in N && N[n].DirNode?
  {
    N[i := node][n := N[n].(entries := N[n].entries + [DirEnt(name, i)])]
  }

  ghost predicate EmptyNode(node: Node, parent: int) {
    node == FileNode([]) || node == DirNode(parent, [])
  }

  lemma EnteredGood(N: map<int, Node>, at: map<int, Loc>, rank: map<int, nat>, n: int, name: Name, i: int, node: Node,
                    m: int, e: int)
    requires Named(N, at, rank)
    requires n in N && N[n].DirNode? && GoodName(name)
    requires 0 <= i && i !in N && EmptyNode(node, n)
    requires var N' := Entered(N, n, name, i, node); m in N' && N'[m].DirNode? && 0 <= e < |N'[m].entries|
    ensures GoodEntry(Entered(N, n, name, i, node), at[i := Loc(n, |N[n].entries|)], rank[i := rank[n] + 1], m, e)
  {
    if !(m == n && e == |N[n].entries|) {
      assert GoodEntry(N, at, rank, m, e);
    }
  }

  lemma EnteredUnique(N: map<int, Node>, at: map<int, Loc>, rank: map<int, nat>, n: int, name: Name, i: int, node: Node)
    requires Named(N, at, rank)
    requires n in N && N[n].DirNode? && GoodName(name) && Lookup(N, n, name) == -ENOTFOUND
    ensures UniqueNames(N[n].entries + [DirEnt(name, i)])
  {
    var e := Find(N[n].entries, name);
    assert e >= 0 ==> GoodEntry(N, at, rank, n, e);
    assert UniqueNames(N[n].entries);
  }

  lemma EnteredNamed(N: map<int, Node>, at: map<int, Loc>, rank: map<int, nat>, n: int, name: Name, i: int, node: Node)
    requires Named(N, at, rank)
    requires n in N && N[n].DirNode? && GoodName(name) && Lookup(N, n, name) == -ENOTFOUND
    requires 0 <= i && i !in N && EmptyNode(node, n)
    ensures Named(Entered(N, n, name, i, node), at[i := Loc(n, |N[n].entries|)], rank[i := rank[n] + 1])
  {
    hide GoodEntry;
    var N' := Entered(N, n, name, i, node);
    var at', rank' := at[i := Loc(n, |N[n].entries|)], rank[i := rank[n] + 1];
    forall m, e | m in N' && N'[m].DirNode? && 0 <= e < |N'[m].entries|
      ensures GoodEntry(N', at', rank', m, e)
    {
      EnteredGood(N, at, rank, n, name, i, node, m, e);
    }
    forall m | m in N' && m != 0
      ensures NamedAt(N', at', m)
    {
      if m != i {
        assert NamedAt(N, at, m);
      }
    }
    forall m | m in N' && N'[m].DirNode?
      ensures UniqueNames(N'[m].entries)
    {
      EnteredUnique(N, at, rank, n, name, i, node);
      assert m in N ==> UniqueNames(N[m].entries);
    }
  }

  lemma EnteredTree(N: map<int, Node>, n: int, name: Name, i: int, node: Node)
    requires Tree(N)
    requires n in N && N[n].DirNode? && GoodName(name) && Lookup(N, n, name) == -ENOTFOUND
    requires 0 <= i && i !in N && EmptyNode(node, n)
    ensures Tree(Entered(N, n, name, i, node))
  {
    var at, rank :| Named(N, at, rank);
    EnteredNamed(N, at, rank, n, name, i, node);
  }

  ghost function Without<T>(s: seq<T>, e: int): seq<T>
    requires 0 <= e < |s|
  {
    s[..e] + s[e + 1..]
  }

  /** Entry `e` of directory `n` is removed together with the object it names. */
  ghost function Removed(N: map<int, Node>, n: int, e: int): map<int, Node>
    requires n in N && N[n].DirNode? && 0 <= e < |N[n].entries|
  {
    N[n := N[n].(entries := Without(N[n].entries, e))] - {N[n].entries[e].inum}
  }

  /** The recorded names after the entries behind entry `e` of `n` move down. */
  ghost function Moved(at: map<int, Loc>, n: int, e: int): map<int, Loc> {
    map m | m in at :: if at[m].inum == n && at[m].slot > e then Loc(n, at[m].slot - 1) else at[m]
  }

  ghost predicate Removable(N: map<int, Node>, m: int) {
    m in N && (N[m].FileNode? || N[m].entries == [])
  }

  lemma RemovedNamed(N: map<int, Node>, at: map<int, Loc>, rank: map<int, nat>, n: int, e: int)
    requires Named(N, at, rank)
    requires n in N && N[n].DirNode? && 0 <= e < |N[n].entries| && Removable(N, N[n].entries[e].inum)
    ensures Named(Removed(N, n, e), Moved(at, n, e), rank)
  {
    var c := N[n].entries[e].inum;
    assert GoodEntry(N, at, rank, n, e);
    var N', at' := Removed(N, n, e), Moved(at, n, e);
    forall m, f | m in N' && N'[m].DirNode? && 0 <= f < |N'[m].entries|
      ensures GoodEntry(N', at', rank, m, f)
    {
      var f0 := if m == n && f >= e then f + 1 else f;
      assert N'[m].entries[f] == N[m].entries[f0];
      assert GoodEntry(N, at, rank, m, f0);
      var t := N[m].entries[f0].inum;
      assert at[t] == Loc(m, f0) && at[c] == Loc(n, e);
    }
    forall m | m in N' && m != 0
      ensures NamedAt(N', at', m)
    {
      RemovedNamedAt(N, at, rank, n, e, m);
    }
    forall m | m in N' && N'[m].DirNode?
      ensures UniqueNames(N'[m].entries)
    {
      assert UniqueNames(N[m].entries);
    }
  }

  lemma RemovedNamedAt(N: map<int, Node>, at: map<int, Loc>, rank: map<int, nat>, n: int, e: int, m: int)
    requires Named(N, at, rank)
    requires n in N && N[n].DirNode? && 0 <= e < |N[n].entries| && Removable(N, N[n].entries[e].inum)
    requires m in Removed(N, n, e) && m != 0
    ensures NamedAt(Removed(N, n, e), Moved(at, n, e), m)
  {
    var c := N[n].entries[e].inum;
    assert GoodEntry(N, at, rank, n, e);
    assert NamedAt(N, at, m);
    var p, f := at[m].inum, at[m].slot;
    assert N[p].entries[f].inum == m != c;
    assert p != c;
    if p == n {
      assert f != e;
      assert f > e ==> Without(N[n].entries, e)[f - 1] == N[n].entries[f];
    }
  }

  lemma RemovedTree(N: map<int, Node>, n: int, e: int)
    requires Tree(N)
    requires n in N && N[n].DirNode? && 0 <= e < |N[n].entries| && Removable(N, N[n].entries[e].inum)
    ensures Tree(Removed(N, n, e))
  {
    var at, rank :| Named(N, at, rank);
    RemovedNamed(N, at, rank, n, e);
  }

  /** The content of a file is replaced. */
  lemma OverwrittenTree(N: map<int, Node>, n: int, content: seq<bv8>)
    requires Tree(N) && n in N && N[n].FileNode?
    ensures Tree(N[n := FileNode(content)])
  {
    var at, rank :| Named(N, at, rank);
    var N' := N[n := FileNode(content)];
    forall m, e | m in N' && N'[m].DirNode? && 0 <= e < |N'[m].entries|
      ensures GoodEntry(N', at, rank, m, e)
    {
      assert GoodEntry(N, at, rank, m, e);
    }
    forall m | m in N' && m != 0
      ensures NamedAt(N', at, m)
    {
      assert NamedAt(N, at, m);
    }
    assert Named(N', at, rank);
  }

  lemma RootOnlyTree()
    ensures Tree(map[0 := DirNode(0, [])])
  {
    assert Named(map[0 := DirNode(0, [])], map[], map[0 := 0]);
  }
}
