/** Paths from the root.  In a consistent namespace every object has exactly one path of plain names, so
    the namespace is a tree of named files and directories, and each operation changes it at one path. */
module Paths {
  import opened Ufs
  import opened Storage
  import opened Objects
  import opened Namespace

  type Path = seq<Name>

  /** Where the names of `path` lead from `n`, dots included; the first failing lookup is the result. */
  ghost function Walk(N: map<int, Node>, n: int, path: Path): int
    decreases |path|
  {
    if path == [] || n < 0 then n else Walk(N, Lookup(N, n, path[0]), path[1..])
  }

  ghost predicate Plain(path: Path) {
    forall i :: 0 <= i < |path| ==> GoodName(path[i])
  }

  lemma {:induction false} WalkConcat(N: map<int, Node>, n: int, p: Path, q: Path)
    ensures Walk(N, n, p + q) == Walk(N, Walk(N, n, p), q)
    decreases |p|
  {
    if p == [] {
      assert p + q == q;
    } else if n >= 0 {
      WalkConcat(N, Lookup(N, n, p[0]), p[1..], q);
      assert (p + q)[1..] == p[1..] + q;
    }
  }

  lemma WalkLast(N: map<int, Node>, n: int, p: Path)
    requires p != [] && Walk(N, n, p[..|p| - 1]) >= 0
    ensures Walk(N, n, p) == Lookup(N, Walk(N, n, p[..|p| - 1]), p[|p| - 1])
  {
    var last := |p| - 1;
    assert p == p[..last] + [p[last]];
    WalkConcat(N, n, p[..last], [p[last]]);
    var m := Walk(N, n, p[..last]);
    assert Walk(N, m, [p[last]]) == Walk(N, Lookup(N, m, p[last]), []);
  }

  /** A path that leads to a negative number went wrong somewhere; up to its last name it may be fine. */
  lemma WalkPrefix(N: map<int, Node>, n: int, p: Path)
    requires p != [] && Walk(N, n, p) >= 0
    ensures Walk(N, n, p[..|p| - 1]) >= 0
  {
    var last := |p| - 1;
    assert p == p[..last] + [p[last]];
    WalkConcat(N, n, p[..last], [p[last]]);
  }

  // Where a walk ends

  /** The walk comes to a file with names left. */
  ghost predicate MeetsFile(N: map<int, Node>, n: int, path: Path) {
    exists k :: 0 <= k < |path| && var m := Walk(N, n, path[..k]); m in N && N[m].FileNode?
  }

  /** The walk comes to a directory without the next name. */
  ghost predicate MissesName(N: map<int, Node>, n: int, path: Path) {
    exists k :: 0 <= k < |path|
                && var m := Walk(N, n, path[..k]); m in N && N[m].DirNode? && Lookup(N, m, path[k]) !in N
  }

  lemma WalkNext(N: map<int, Node>, n: int, path: Path, k: nat)
    requires 0 < k <= |path| && n >= 0
    ensures Walk(N, n, path[..k]) == Walk(N, Lookup(N, n, path[0]), path[1..][..k - 1])
  {
    assert path[..k][1..] == path[1..][..k - 1];
  }

  lemma MeetsFileNext(N: map<int, Node>, n: int, path: Path)
    requires path != [] && n >= 0 && n in N
    ensures MeetsFile(N, n, path) <==> N[n].FileNode? || MeetsFile(N, Lookup(N, n, path[0]), path[1..])
  {
    hide Lookup;
    var t := Lookup(N, n, path[0]);
    assert Walk(N, n, path[..0]) == n;
    forall k | 0 < k < |path|
      ensures Walk(N, n, path[..k]) == Walk(N, t, path[1..][..k - 1])
    {
      WalkNext(N, n, path, k);
    }
    if MeetsFile(N, t, path[1..]) {
      var k :| 0 <= k < |path[1..]| && var m := Walk(N, t, path[1..][..k]); m in N && N[m].FileNode?;
      WalkNext(N, n, path, k + 1);
    }
  }

  lemma MissesNameNext(N: map<int, Node>, n: int, path: Path)
    requires path != [] && n >= 0 && n in N
    ensures MissesName(N, n, path) <==>
              || (N[n].DirNode? && Lookup(N, n, path[0]) !in N)
              || MissesName(N, Lookup(N, n, path[0]), path[1..])
  {
    hide Lookup;
    var t := Lookup(N, n, path[0]);
    assert Walk(N, n, path[..0]) == n;
    forall k | 0 < k < |path|
      ensures Walk(N, n, path[..k]) == Walk(N, t, path[1..][..k - 1])
    {
      WalkNext(N, n, path, k);
    }
    if MissesName(N, t, path[1..]) {
      var k :| 0 <= k < |path[1..]|
               && var m := Walk(N, t, path[1..][..k]); m in N && N[m].DirNode? && Lookup(N, m, path[1..][k]) !in N;
      WalkNext(N, n, path, k + 1);
    }
  }

  lemma NoWalk(N: map<int, Node>, n: int, path: Path)
    requires n < 0 && n !in N
    ensures !MeetsFile(N, n, path) && !MissesName(N, n, path)
  {
  }

  /** A walk ends at an object, unless it comes to a file or to a directory without the next name. */
  lemma {:induction false} WalkEnds(N: map<int, Node>, n: int, path: Path)
    requires Tree(N) && n in N
    ensures var m := Walk(N, n, path);
            && (m in N <==> !MeetsFile(N, n, path) && !MissesName(N, n, path))
            && (m == -EINVALIDINODE <==> MeetsFile(N, n, path))
            && (m == -ENOTFOUND <==> MissesName(N, n, path))
    decreases |path|
  {
    hide Tree, MeetsFile, MissesName, Lookup;
    NegativesOutside(N);
    if path == [] {
      NothingMet(N, n);
    } else {
      var t := Lookup(N, n, path[0]);
      LookupIn(N, n, path[0]);
      MeetsFileNext(N, n, path);
      MissesNameNext(N, n, path);
      if t in N {
        WalkEnds(N, t, path[1..]);
      } else {
        NoWalk(N, t, path[1..]);
      }
    }
  }

  lemma NothingMet(N: map<int, Node>, n: int)
    ensures !MeetsFile(N, n, []) && !MissesName(N, n, [])
  {
  }

  /** The entry that a lookup of a plain name finds. */
  lemma LookupEntry(N: map<int, Node>, at: map<int, Loc>, rank: map<int, nat>, n: int, name: Name)
    requires Named(N, at, rank) && GoodName(name) && Lookup(N, n, name) >= 0
    ensures n in N && N[n].DirNode?
    ensures var e := Find(N[n].entries, name);
            var m := Lookup(N, n, name);
            && e >= 0 && N[n].entries[e] == DirEnt(name, m)
            && m in N && m != 0 && m in at && at[m] == Loc(n, e) && n in rank && m in rank && rank[n] < rank[m]
  {
    var e := Find(N[n].entries, name);
    assert GoodEntry(N, at, rank, n, e);
  }

  lemma EntryLookup(N: map<int, Node>, at: map<int, Loc>, rank: map<int, nat>, n: int, e: int)
    requires Named(N, at, rank) && n in N && N[n].DirNode? && 0 <= e < |N[n].entries|
    ensures GoodName(N[n].entries[e].name) && Lookup(N, n, N[n].entries[e].name) == N[n].entries[e].inum
    ensures Find(N[n].entries, N[n].entries[e].name) == e
  {
    assert GoodEntry(N, at, rank, n, e);
    assert UniqueNames(N[n].entries);
    var f := Find(N[n].entries, N[n].entries[e].name);
    assert f == e;
  }

  lemma LookupInside(N: map<int, Node>, at: map<int, Loc>, rank: map<int, nat>, n: int, name: Name)
    requires Named(N, at, rank) && n in N
    ensures n >= 0
    ensures Lookup(N, n, name) >= 0 ==> Lookup(N, n, name) in N
  {
    if N[n].DirNode? {
      if n != 0 {
        assert NamedAt(N, at, n);
        assert GoodEntry(N, at, rank, at[n].inum, at[n].slot);
      }
      var e := Find(N[n].entries, name);
      assert e >= 0 ==> GoodEntry(N, at, rank, n, e);
    }
  }

  /** The plain path of an object, from the directory that names it up to the root. */
  ghost function PathTo(N: map<int, Node>, at: map<int, Loc>, rank: map<int, nat>, m: int): (path: Path)
    requires Named(N, at, rank) && m in N
    ensures Plain(path) && Walk(N, 0, path) == m
    decreases rank[m]
  {
    if m == 0 then []
    else
      assert NamedAt(N, at, m);
      var d, e := at[m].inum, at[m].slot;
      assert GoodEntry(N, at, rank, d, e);
      EntryLookup(N, at, rank, d, e);
      var path := PathTo(N, at, rank, d) + [N[d].entries[e].name];
      assert path[..|path| - 1] == PathTo(N, at, rank, d);
      WalkLast(N, 0, path);
      path
  }

  /** No two plain paths lead to the same object. */
  lemma {:induction false} PathUnique(N: map<int, Node>, p: Path, q: Path)
    requires Tree(N) && Plain(p) && Plain(q)
    requires Walk(N, 0, p) == Walk(N, 0, q) >= 0
    ensures p == q
    decreases |p|
  {
    var at: map<int, Loc>, rank: map<int, nat> :| Named(N, at, rank);
    if p != [] { LastStep(N, at, rank, p); }
    if q != [] { LastStep(N, at, rank, q); }
    if p != [] && q != [] {
      PathUnique(N, p[..|p| - 1], q[..|q| - 1]);
      assert p == p[..|p| - 1] + [p[|p| - 1]] && q == q[..|q| - 1] + [q[|q| - 1]];
    }
  }

  lemma LastStep(N: map<int, Node>, at: map<int, Loc>, rank: map<int, nat>, p: Path)
    requires Named(N, at, rank) && Plain(p) && p != [] && Walk(N, 0, p) >= 0
    ensures var d, m := Walk(N, 0, p[..|p| - 1]), Walk(N, 0, p);
            && d >= 0 && m != 0 && m in at && at[m].inum == d && d in N && N[d].DirNode?
            && 0 <= at[m].slot < |N[d].entries| && N[d].entries[at[m].slot] == DirEnt(p[|p| - 1], m)
  {
    WalkPrefix(N, 0, p);
    WalkLast(N, 0, p);
    LookupEntry(N, at, rank, Walk(N, 0, p[..|p| - 1]), p[|p| - 1]);
  }

  /** Every object has exactly one plain path. */
  lemma OnePath(N: map<int, Node>, m: int)
    requires Tree(N) && m in N
    ensures exists p :: Plain(p) && Walk(N, 0, p) == m
    ensures forall p, q :: Plain(p) && Plain(q) && Walk(N, 0, p) == m && Walk(N, 0, q) == m ==> p == q
  {
    var at: map<int, Loc>, rank: map<int, nat> :| Named(N, at, rank);
    var path := PathTo(N, at, rank, m);
    forall p, q | Plain(p) && Plain(q) && Walk(N, 0, p) == m && Walk(N, 0, q) == m
      ensures p == q
    {
      PathUnique(N, p, q);
    }
  }

  /** What is found at a path: nothing, a file with its bytes, or a directory with its names in order. */
  datatype Found = Nothing | File(content: seq<bv8>) | Directory(names: seq<Name>)

  ghost function NamesOf(es: seq<DirEnt>): (names: seq<Name>)
    ensures |names| == |es|
  {
    seq(|es|, i requires 0 <= i < |es| => es[i].name)
  }

  ghost function Contents(node: Node): Found {
    match node
    case FileNode(content) => File(content)
    case DirNode(_, entries) => Directory(NamesOf(entries))
  }

  ghost function At(N: map<int, Node>, path: Path): Found {
    var m := Walk(N, 0, path);
    if m in N then Contents(N[m]) else Nothing
  }

  // create

  /** In the new namespace a walk along plain names takes the same steps, unless it reaches the new object,
      from where there is no way on. */
  lemma {:induction false} WalkEntered(N: map<int, Node>, n: int, name: Name, i: int, node: Node, s: int, q: Path)
    requires Tree(N) && n in N && N[n].DirNode? && Lookup(N, n, name) == -ENOTFOUND && GoodName(name)
    requires 0 <= i && i !in N && EmptyNode(node, n) && s in N && Plain(q)
    ensures var m, m' := Walk(N, s, q), Walk(Entered(N, n, name, i, node), s, q);
            || (m' == i && m !in N)
            || (m' == m && m != i)
            || (m !in N && m' < 0)
    decreases |q|
  {
    var N' := Entered(N, n, name, i, node);
    LookupNonNegative(N, s);
    if q != [] {
      LookupEntered(N, n, name, i, node, s, q[0]);
      var t := Lookup(N, s, q[0]);
      if t >= 0 {
        WalkEntered(N, n, name, i, node, t, q[1..]);
      } else {
        NegativeOutside(N, t);
        assert Walk(N, t, q[1..]) == t;
        if s == n && q[0] == name && q[1..] != [] {
          assert Lookup(N', i, q[1..][0]) < 0;
          assert Walk(N', i, q[1..]) == Lookup(N', i, q[1..][0]);
        }
      }
    }
  }

  lemma LookupNonNegative(N: map<int, Node>, s: int)
    requires Tree(N) && s in N
    ensures s >= 0
  {
    var at: map<int, Loc>, rank: map<int, nat> :| Named(N, at, rank);
  }

  lemma NegativeOutside(N: map<int, Node>, t: int)
    requires Tree(N) && t < 0
    ensures t !in N
  {
    var at: map<int, Loc>, rank: map<int, nat> :| Named(N, at, rank);
  }

  lemma LookupEntered(N: map<int, Node>, n: int, name: Name, i: int, node: Node, s: int, x: Name)
    requires Tree(N) && n in N && N[n].DirNode? && Lookup(N, n, name) == -ENOTFOUND && GoodName(name)
    requires 0 <= i && i !in N && s in N && GoodName(x)
    ensures Lookup(Entered(N, n, name, i, node), s, x) == if s == n && x == name then i else Lookup(N, s, x)
    ensures Lookup(N, s, x) >= 0 ==> Lookup(N, s, x) in N
    ensures s == n && x == name ==> Lookup(N, s, x) < 0
  {
    hide Tree, Find, Named;
    LookupStays(N, s, x);
    if s == n {
      FindAppended(N[n].entries, DirEnt(name, i), x);
      FoundNonNegative(N, n, name);
    }
  }

  lemma FoundNonNegative(N: map<int, Node>, n: int, name: Name)
    requires Tree(N) && n in N && N[n].DirNode? && Lookup(N, n, name) == -ENOTFOUND && GoodName(name)
    ensures Find(N[n].entries, name) < 0
  {
    var at: map<int, Loc>, rank: map<int, nat> :| Named(N, at, rank);
    var e := Find(N[n].entries, name);
    assert e >= 0 ==> GoodEntry(N, at, rank, n, e);
  }

  lemma FindAppended(es: seq<DirEnt>, ent: DirEnt, x: Name)
    ensures Find(es + [ent], x) == if Find(es, x) >= 0 then Find(es, x) else if ent.name == x then |es| else -1
  {
    var e := Find(es + [ent], x);
    var f := Find(es, x);
    assert forall j :: 0 <= j < |es| ==> (es + [ent])[j] == es[j];
    assert (es + [ent])[|es|] == ent;
  }

  /** Creating an object adds exactly its path, and its name at the end of its directory's list. */
  lemma CreatedAtPath(N: map<int, Node>, p: Path, n: int, name: Name, i: int, node: Node, q: Path)
    requires Tree(N) && Plain(p) && Walk(N, 0, p) == n && n in N && N[n].DirNode?
    requires GoodName(name) && Lookup(N, n, name) == -ENOTFOUND
    requires 0 <= i && i !in N && EmptyNode(node, n) && Plain(q)
    ensures At(Entered(N, n, name, i, node), q) ==
              if q == p + [name] then Contents(node)
              else if q == p then Directory(NamesOf(N[n].entries) + [name])
              else At(N, q)
  {
    hide Tree, Find, Lookup, Walk;
    var N' := Entered(N, n, name, i, node);
    RootIn(N);
    EnteredTree(N, n, name, i, node);
    WalkEntered(N, n, name, i, node, 0, p);
    WalkEntered(N, n, name, i, node, 0, q);
    LookupEntered(N, n, name, i, node, n, name);
    var path := p + [name];
    assert path[..|path| - 1] == p;
    NegativesOutside(N);
    WalkLast(N', 0, path);
    if Walk(N', 0, q) == i { PathUnique(N', q, path); }
    if Walk(N', 0, q) == n { PathUnique(N', q, p); }
    assert NamesOf(N[n].entries + [DirEnt(name, i)]) == NamesOf(N[n].entries) + [name];
    NegativesOutside(N');
  }

  lemma RootIn(N: map<int, Node>)
    requires Tree(N)
    ensures 0 in N
  {
    var at: map<int, Loc>, rank: map<int, nat> :| Named(N, at, rank);
  }

  lemma NegativesOutside(N: map<int, Node>)
    requires Tree(N)
    ensures forall t :: t in N ==> t >= 0
  {
    var at: map<int, Loc>, rank: map<int, nat> :| Named(N, at, rank);
  }

  // write

  lemma {:induction false} WalkOverwritten(N: map<int, Node>, n: int, content: seq<bv8>, s: int, q: Path)
    requires n in N && N[n].FileNode?
    ensures Walk(N[n := FileNode(content)], s, q) == Walk(N, s, q)
    decreases |q|
  {
    if q != [] && s >= 0 {
      WalkOverwritten(N, n, content, Lookup(N, s, q[0]), q[1..]);
    }
  }

  /** Writing a file changes what is found at its path, and nothing else. */
  lemma WrittenAtPath(N: map<int, Node>, p: Path, n: int, content: seq<bv8>, q: Path)
    requires Tree(N) && Plain(p) && Walk(N, 0, p) == n && n in N && N[n].FileNode? && Plain(q)
    ensures At(N[n := FileNode(content)], q) == if q == p then File(content) else At(N, q)
  {
    WalkOverwritten(N, n, content, 0, q);
    NegativesOutside(N);
    if Walk(N, 0, q) == n { PathUnique(N, q, p); }
  }

  // unlink

  /** In the new namespace a walk along plain names takes the same steps, unless it needed the removed name. */
  lemma {:induction false} WalkRemoved(N: map<int, Node>, n: int, e: int, s: int, q: Path)
    requires Tree(N) && n in N && N[n].DirNode? && 0 <= e < |N[n].entries| && Removable(N, N[n].entries[e].inum)
    requires s in N && s != N[n].entries[e].inum && Plain(q)
    ensures var m, m' := Walk(N, s, q), Walk(Removed(N, n, e), s, q);
            || (m' == m && m != N[n].entries[e].inum)
            || (m' < 0 && (m == N[n].entries[e].inum || m < 0))
    decreases |q|
  {
    var c := N[n].entries[e].inum;
    LookupNonNegative(N, s);
    if q != [] {
      LookupRemoved(N, n, e, s, q[0]);
      var t := Lookup(N, s, q[0]);
      if t < 0 {
        assert Walk(N, t, q[1..]) == t;
      } else if t == c {
        assert Walk(Removed(N, n, e), -ENOTFOUND, q[1..]) == -ENOTFOUND;
        DeadEnd(N, c, q[1..]);
      } else {
        WalkRemoved(N, n, e, t, q[1..]);
      }
    }
  }

  lemma DeadEnd(N: map<int, Node>, c: int, q: Path)
    requires Removable(N, c) && Plain(q)
    ensures Walk(N, c, q) == c || Walk(N, c, q) < 0
  {
    if q != [] && c >= 0 {
      assert Lookup(N, c, q[0]) < 0;
      assert Walk(N, Lookup(N, c, q[0]), q[1..]) == Lookup(N, c, q[0]);
    }
  }

  lemma FindWithout(es: seq<DirEnt>, e: int, x: Name)
    requires UniqueNames(es) && 0 <= e < |es|
    ensures var f := Find(es, x);
            Find(Without(es, e), x) == if f < e then f else if f == e then -1 else f - 1
  {
    var f, g := Find(es, x), Find(Without(es, e), x);
    assert forall j :: 0 <= j < |es| - 1 ==> Without(es, e)[j] == if j < e then es[j] else es[j + 1];
    if f >= 0 && f != e {
      var h := if f < e then f else f - 1;
      assert Without(es, e)[h] == es[f];
      assert 0 <= g <= h;
      assert Without(es, e)[g].name == x;
    }
  }

  lemma LookupRemovedHere(N: map<int, Node>, n: int, e: int, x: Name)
    requires n in N && N[n].DirNode? && 0 <= e < |N[n].entries| && UniqueNames(N[n].entries) && GoodName(x)
    requires n != N[n].entries[e].inum
    requires forall f :: 0 <= f < |N[n].entries| ==> N[n].entries[f].inum >= 0
    requires forall f :: 0 <= f < |N[n].entries| && f != e ==> N[n].entries[f].inum != N[n].entries[e].inum
    ensures var c, t := N[n].entries[e].inum, Lookup(N, n, x);
            && Lookup(Removed(N, n, e), n, x) == (if t == c then -ENOTFOUND else t)
            && (t == c <==> x == N[n].entries[e].name)
  {
    var es := N[n].entries;
    FindWithout(es, e, x);
    var f := Find(es, x);
    if f >= 0 && f != e {
      assert Without(es, e)[if f < e then f else f - 1] == es[f];
    }
    assert x == es[e].name ==> Find(es, x) == e;
  }

  lemma LookupElsewhere(N: map<int, Node>, n: int, e: int, s: int, x: Name)
    requires Tree(N) && n in N && N[n].DirNode? && 0 <= e < |N[n].entries|
    requires s in N && s != n && GoodName(x)
    ensures Lookup(N, s, x) != N[n].entries[e].inum
  {
    var at: map<int, Loc>, rank: map<int, nat> :| Named(N, at, rank);
    assert GoodEntry(N, at, rank, n, e);
    if Lookup(N, s, x) >= 0 {
      LookupEntry(N, at, rank, s, x);
    }
  }

  lemma EntriesDiffer(N: map<int, Node>, n: int, e: int)
    requires Tree(N) && n in N && N[n].DirNode? && 0 <= e < |N[n].entries|
    ensures UniqueNames(N[n].entries) && n != N[n].entries[e].inum
    ensures forall f :: 0 <= f < |N[n].entries| ==> N[n].entries[f].inum >= 0
    ensures forall f :: 0 <= f < |N[n].entries| && f != e ==> N[n].entries[f].inum != N[n].entries[e].inum
  {
    var at: map<int, Loc>, rank: map<int, nat> :| Named(N, at, rank);
    assert GoodEntry(N, at, rank, n, e);
    forall f | 0 <= f < |N[n].entries|
      ensures N[n].entries[f].inum >= 0 && (f != e ==> N[n].entries[f].inum != N[n].entries[e].inum)
    {
      assert GoodEntry(N, at, rank, n, f);
    }
  }

  lemma LookupRemoved(N: map<int, Node>, n: int, e: int, s: int, x: Name)
    requires Tree(N) && n in N && N[n].DirNode? && 0 <= e < |N[n].entries| && Removable(N, N[n].entries[e].inum)
    requires s in N && s != N[n].entries[e].inum && GoodName(x)
    ensures var c, t := N[n].entries[e].inum, Lookup(N, s, x);
            && Lookup(Removed(N, n, e), s, x) == (if t == c then -ENOTFOUND else t)
            && (t >= 0 ==> t in N)
            && (t == c <==> s == n && x == N[n].entries[e].name)
  {
    hide Tree;
    LookupStays(N, s, x);
    if s == n {
      EntriesDiffer(N, n, e);
      LookupRemovedHere(N, n, e, x);
    } else {
      LookupElsewhere(N, n, e, s, x);
    }
  }

  lemma LookupStays(N: map<int, Node>, s: int, x: Name)
    requires Tree(N) && s in N
    ensures Lookup(N, s, x) >= 0 ==> Lookup(N, s, x) in N
  {
    var at: map<int, Loc>, rank: map<int, nat> :| Named(N, at, rank);
    LookupInside(N, at, rank, s, x);
  }

  /** Removing an object removes exactly its path, and its name from its directory's list, in place. */
  lemma RemovedAtPath(N: map<int, Node>, p: Path, n: int, e: int, q: Path)
    requires Tree(N) && Plain(p) && Walk(N, 0, p) == n && n in N && N[n].DirNode?
    requires 0 <= e < |N[n].entries| && Removable(N, N[n].entries[e].inum) && Plain(q)
    ensures At(Removed(N, n, e), q) ==
              if q == p + [N[n].entries[e].name] then Nothing
              else if q == p then Directory(Without(NamesOf(N[n].entries), e))
              else At(N, q)
  {
    hide Tree, Find, Lookup, Walk, Removable;
    var N' := Removed(N, n, e);
    var c := N[n].entries[e].inum;
    RootIn(N);
    NegativesOutside(N);
    RemovedTree(N, n, e);
    RemovedTarget(N, n, e);
    EntriesDiffer(N, n, e);
    WalkRemoved(N, n, e, 0, q);
    var path := p + [N[n].entries[e].name];
    assert path[..|path| - 1] == p;
    WalkLast(N, 0, path);
    if Walk(N, 0, q) == c { PathUnique(N, q, path); }
    if Walk(N, 0, q) == n { PathUnique(N, q, p); }
    assert NamesOf(Without(N[n].entries, e)) == Without(NamesOf(N[n].entries), e);
  }

  lemma RemovedTarget(N: map<int, Node>, n: int, e: int)
    requires Tree(N) && n in N && N[n].DirNode? && 0 <= e < |N[n].entries|
    ensures N[n].entries[e].inum != 0 && N[n].entries[e].inum != n && GoodName(N[n].entries[e].name)
    ensures Lookup(N, n, N[n].entries[e].name) == N[n].entries[e].inum
  {
    var at: map<int, Loc>, rank: map<int, nat> :| Named(N, at, rank);
    assert GoodEntry(N, at, rank, n, e);
    EntryLookup(N, at, rank, n, e);
  }
}
