/** How walks, dots included, fare when the namespace grows or loses an object. */
module Growth {
  import opened Ufs
  import opened Storage
  import opened Objects
  import opened Namespace
  import opened Paths

  /** Files are as they were, directories have at least their old entries, in their old places. */
  ghost predicate Kept(a: Node, b: Node) {
    match a
    case FileNode(_) => b == a
    case DirNode(parent, entries) => b.DirNode? && b.parent == parent && entries <= b.entries
  }

  /** Every object of `N` is still there in `M`. */
  ghost predicate Extends(N: map<int, Node>, M: map<int, Node>) {
    forall n :: n in N ==> n in M && Kept(N[n], M[n])
  }

  lemma ExtendsItself(N: map<int, Node>)
    ensures Extends(N, N)
  {
  }

  lemma ExtendsOn(N: map<int, Node>, M: map<int, Node>, K: map<int, Node>)
    requires Extends(N, M) && Extends(M, K)
    ensures Extends(N, K)
  {
  }

  lemma EnteredExtends(N: map<int, Node>, n: int, name: Name, i: int, node: Node)
    requires n in N && N[n].DirNode? && i !in N
    ensures Extends(N, Entered(N, n, name, i, node))
  {
  }

  lemma FindKept(es: seq<DirEnt>, fs: seq<DirEnt>, x: Name)
    requires es <= fs && Find(es, x) >= 0
    ensures Find(fs, x) == Find(es, x)
  {
    var e, f := Find(es, x), Find(fs, x);
    assert forall j :: 0 <= j < |es| ==> es[j] == fs[j];
    assert f >= 0;
  }

  lemma LookupKept(N: map<int, Node>, M: map<int, Node>, n: int, x: Name)
    requires Extends(N, M) && Lookup(N, n, x) >= 0
    ensures Lookup(M, n, x) == Lookup(N, n, x)
  {
    assert Kept(N[n], M[n]);
    if x != "." && x != ".." {
      FindKept(N[n].entries, M[n].entries, x);
    }
  }

  /** What a path leads to, it still leads to. */
  lemma {:induction false} WalkKept(N: map<int, Node>, M: map<int, Node>, n: int, path: Path)
    requires Extends(N, M) && Walk(N, n, path) >= 0
    ensures Walk(M, n, path) == Walk(N, n, path)
    decreases |path|
  {
    if path != [] && n >= 0 {
      if Lookup(N, n, path[0]) >= 0 {
        LookupKept(N, M, n, path[0]);
        WalkKept(N, M, Lookup(N, n, path[0]), path[1..]);
      }
    }
  }

  /** Whether the walk comes by object `c`. */
  ghost predicate Visits(N: map<int, Node>, n: int, path: Path, c: int)
    decreases |path|
  {
    n == c || (n >= 0 && path != [] && Visits(N, Lookup(N, n, path[0]), path[1..], c))
  }

  lemma LookupAfterRemoval(N: map<int, Node>, n: int, e: int, s: int, x: Name)
    requires Tree(N) && n in N && N[n].DirNode? && 0 <= e < |N[n].entries| && Removable(N, N[n].entries[e].inum)
    requires s in N && s != N[n].entries[e].inum
    ensures var c, t := N[n].entries[e].inum, Lookup(N, s, x);
            && Lookup(Removed(N, n, e), s, x) == (if t == c then -ENOTFOUND else t)
            && (t >= 0 ==> t in N)
  {
    hide Tree, Removable, Find;
    LookupStays(N, s, x);
    EntryNonNegative(N, n, e);
    if N[s].FileNode? {
    } else if GoodName(x) {
      LookupRemoved(N, n, e, s, x);
    } else if x == "." {
    } else if x == ".." {
      ParentStays(N, n, e, s);
    } else {
      BadNameAbsent(N, n, e, s, x);
    }
  }

  lemma ParentStays(N: map<int, Node>, n: int, e: int, s: int)
    requires Tree(N) && n in N && N[n].DirNode? && 0 <= e < |N[n].entries| && Removable(N, N[n].entries[e].inum)
    requires s in N && N[s].DirNode?
    ensures N[s].parent != N[n].entries[e].inum
  {
    var at: map<int, Loc>, rank: map<int, nat> :| Named(N, at, rank);
    assert GoodEntry(N, at, rank, n, e);
    if s != 0 {
      assert NamedAt(N, at, s);
      assert GoodEntry(N, at, rank, at[s].inum, at[s].slot);
    }
  }

  lemma BadNameAbsent(N: map<int, Node>, n: int, e: int, s: int, x: Name)
    requires Tree(N) && n in N && N[n].DirNode? && 0 <= e < |N[n].entries|
    requires s in N && !GoodName(x) && x != "." && x != ".."
    ensures Lookup(N, s, x) < 0 && Lookup(N, s, x) != N[n].entries[e].inum
    ensures s != N[n].entries[e].inum ==> Lookup(Removed(N, n, e), s, x) == Lookup(N, s, x)
  {
    var at: map<int, Loc>, rank: map<int, nat> :| Named(N, at, rank);
    assert GoodEntry(N, at, rank, n, e);
    if N[s].DirNode? {
      NoBadName(N, s, x);
      if s == n {
        assert forall f :: 0 <= f < |N[n].entries| - 1 ==>
                 Without(N[n].entries, e)[f] == N[n].entries[if f < e then f else f + 1];
      }
    }
  }

  lemma NoBadName(N: map<int, Node>, s: int, x: Name)
    requires Tree(N) && s in N && N[s].DirNode? && !GoodName(x)
    ensures Find(N[s].entries, x) < 0
    ensures forall f :: 0 <= f < |N[s].entries| ==> N[s].entries[f].name != x
  {
    var at: map<int, Loc>, rank: map<int, nat> :| Named(N, at, rank);
    forall f | 0 <= f < |N[s].entries|
      ensures N[s].entries[f].name != x
    {
      assert GoodEntry(N, at, rank, s, f);
    }
  }

  /** After an object is removed, exactly the walks that came by it fail; all others lead where they led. */
  lemma {:induction false} WalkAfterRemoval(N: map<int, Node>, n: int, e: int, s: int, path: Path)
    requires Tree(N) && n in N && N[n].DirNode? && 0 <= e < |N[n].entries| && Removable(N, N[n].entries[e].inum)
    requires s in N && s != N[n].entries[e].inum
    ensures var c := N[n].entries[e].inum;
            Walk(Removed(N, n, e), s, path) == if Visits(N, s, path, c) then -ENOTFOUND else Walk(N, s, path)
    decreases |path|
  {
    var c := N[n].entries[e].inum;
    LookupNonNegative(N, s);
    if path != [] {
      LookupAfterRemoval(N, n, e, s, path[0]);
      var t := Lookup(N, s, path[0]);
      if t == c {
        assert Walk(Removed(N, n, e), -ENOTFOUND, path[1..]) == -ENOTFOUND;
      } else if t >= 0 {
        WalkAfterRemoval(N, n, e, t, path[1..]);
      } else {
        RemovedTarget(N, n, e);
        EntryNonNegative(N, n, e);
        assert !Visits(N, t, path[1..], c);
      }
    }
  }

  lemma EntryNonNegative(N: map<int, Node>, n: int, e: int)
    requires Tree(N) && n in N && N[n].DirNode? && 0 <= e < |N[n].entries|
    ensures N[n].entries[e].inum >= 0
  {
    var at: map<int, Loc>, rank: map<int, nat> :| Named(N, at, rank);
    assert GoodEntry(N, at, rank, n, e);
  }

  /** A walk along plain names that ends elsewhere has not come by a file or an empty directory. */
  lemma {:induction false} PlainWalkAvoids(N: map<int, Node>, s: int, path: Path, c: int)
    requires Removable(N, c) && Plain(path) && Walk(N, s, path) >= 0 && Walk(N, s, path) != c
    ensures !Visits(N, s, path, c)
    decreases |path|
  {
    if s == c {
      DeadEnd(N, c, path);
    } else if path != [] && s >= 0 {
      PlainWalkAvoids(N, Lookup(N, s, path[0]), path[1..], c);
    }
  }

  lemma {:induction false} VisitsEnd(N: map<int, Node>, s: int, path: Path)
    requires Walk(N, s, path) >= 0
    ensures Visits(N, s, path, Walk(N, s, path))
    decreases |path|
  {
    if path != [] && s >= 0 {
      VisitsEnd(N, Lookup(N, s, path[0]), path[1..]);
    }
  }
}
