/** DELETE as a function on consistent volumes, and what it promises. */
module DeleteSpec {
  import opened Ufs
  import opened Volume
  import opened Storage
  import opened Objects
  import opened Namespace
  import opened Consistency
  import opened UnlinkSpec
  import opened Paths
  import opened Growth
  import opened PathText
  import opened ServiceSpec

  /** The path without one trailing slash. */
  function Trimmed(path: Name): Name {
    if path != "" && path[|path| - 1] == '/' then path[..|path| - 1] else path
  }

  ghost function UnlinkReply(ret: int): Reply {
    if ret == -EDIRNOTEMPTY then ClientError(FORBIDDEN)
    else if ret == -EINVALIDNAME then ClientError(NOT_FOUND)
    else if ret < 0 then ClientError(INSUFFICIENT_STORAGE)
    else Ok
  }

  ghost function Delete(v: Vol, path: Name): (Vol, Reply)
    requires Consistent(v)
  {
    var names := Trimmed(path);
    var d := Walk(Abs(v), 0, Dirs(names));
    if d == -ENOTFOUND then (v, ClientError(NOT_FOUND))
    else if d < 0 then (v, ClientError(BAD_REQUEST))
    else if Last(names) == "" then (v, ClientError(BAD_REQUEST))
    else if Lookup(Abs(v), d, Last(names)) < 0 then (v, ClientError(NOT_FOUND))
    else
      var out := Unlink(v, d, Last(names));
      (out.vol, UnlinkReply(out.ret))
  }

  /** What the path of a DELETE names: entry `e` of directory `d`. */
  ghost predicate NamesEntry(N: map<int, Node>, path: Name, d: int, e: int) {
    && Walk(N, 0, Dirs(Trimmed(path))) == d && d in N && N[d].DirNode?
    && GoodName(Last(Trimmed(path)))
    && 0 <= e < |N[d].entries| && e == Find(N[d].entries, Last(Trimmed(path)))
  }

  /** Entry `e` of directory `d` and the object it named are gone. */
  ghost predicate Deleted(v: Vol, d: int, e: int, w: Vol)
    requires Sound(v)
  {
    var N := Abs(v);
    && Sound(w)
    && d in N && N[d].DirNode? && 0 <= e < |N[d].entries|
    && Removable(N, N[d].entries[e].inum) && Abs(w) == Removed(N, d, e)
  }

  /** Which answer DELETE gives, one slash at the end of its path not counting: said of the names on the way, the last
      name, and what it stands for. */
  lemma DeleteAnswers(v: Vol, path: Name)
    requires Consistent(v)
    ensures var names := if path != "" && path[|path| - 1] == '/' then path[..|path| - 1] else path;
            var N, r, dirs, last := Abs(v), Delete(v, path).1, Dirs(names), Last(names);
            var d := Walk(N, 0, dirs);
            var m := Lookup(N, d, last);
            && (r == ClientError(400) <==> MeetsFile(N, 0, dirs) || (d in N && last == ""))
            && (r == ClientError(404) <==> MissesName(N, 0, dirs) || (d in N && last != "" && m !in N))
            && (r == ClientError(403)
                <==> d in N && last !in ["", ".", ".."] && m in N && N[m].DirNode? && N[m].entries != [])
            && (r == ClientError(507) <==> d in N && last in [".", ".."] && m in N)
            && (r == Ok
                <==> d in N && last !in ["", ".", ".."] && m in N && (N[m].FileNode? || N[m].entries == []))
  {
    hide Owned, GoodObjs, Tree, Unlink, Abs, Walk, MeetsFile, MissesName, Lookup;
    var d, last := Walk(Abs(v), 0, Dirs(Trimmed(path))), Last(Trimmed(path));
    RootDir(v);
    NegativesOutside(Abs(v));
    WalkEnds(Abs(v), 0, Dirs(Trimmed(path)));
    LookupIn(Abs(v), d, last);
    UnlinkAnswers(v, d, last);
  }

  /** What it means that a walk along the names, and then the last name, ends at an object. */
  lemma EntryNamed(N: map<int, Node>, path: Name, d: int)
    requires Tree(N) && d in N && N[d].DirNode? && Walk(N, 0, Dirs(Trimmed(path))) == d
    requires Last(Trimmed(path)) !in ["", ".", ".."]
    ensures var e, m := Find(N[d].entries, Last(Trimmed(path))), Lookup(N, d, Last(Trimmed(path)));
            (m in N <==> NamesEntry(N, path, d, e)) && (m in N ==> m == N[d].entries[e].inum)
  {
    hide Tree, Find, Walk;
    LookupIn(N, d, Last(Trimmed(path)));
    var e := Find(N[d].entries, Last(Trimmed(path)));
    if e >= 0 { EntryTargetIn(N, d, e); }
  }

  /** DELETE changes something only if it succeeds, and it succeeds exactly if the path names an entry, by its
      name and not by dots, for a file or an empty directory. */
  lemma DeleteEffect(v: Vol, path: Name)
    requires Consistent(v)
    ensures var r := Delete(v, path);
            && Consistent(r.0) && r.0.super == v.super
            && (r.1 != Ok ==> r.0 == v)
            && (r.1 == Ok ==> exists d, e :: NamesEntry(Abs(v), path, d, e) && Deleted(v, d, e, r.0))
            && (forall d, e :: NamesEntry(Abs(v), path, d, e) && Removable(Abs(v), Abs(v)[d].entries[e].inum) ==>
                  r.1 == Ok)
  {
    hide Owned, GoodObjs, Tree, Unlink, Abs, Find, Walk, Lookup, MeetsFile, MissesName;
    var d, name := Walk(Abs(v), 0, Dirs(Trimmed(path))), Last(Trimmed(path));
    DeleteAnswers(v, path);
    UnlinkRefines(v, d, name);
    if d in Abs(v) && Abs(v)[d].DirNode? && name !in ["", ".", ".."] {
      EntryNamed(Abs(v), path, d);
      if Unlink(v, d, name).ret >= 0 {
        assert Deleted(v, d, Find(Abs(v)[d].entries, name), Unlink(v, d, name).vol);
      }
    }
  }

  /** The answer 507, meant for a full disk, is given exactly to a DELETE by dots of an existing directory. */
  lemma DotsAnswer(v: Vol, path: Name)
    requires Consistent(v)
    ensures var d, name := Walk(Abs(v), 0, Dirs(Trimmed(path))), Last(Trimmed(path));
            Delete(v, path).1 == ClientError(507)
            <==> d in Abs(v) && Abs(v)[d].DirNode? && (name == "." || name == "..")
  {
    hide Owned, GoodObjs, Tree, Delete, Abs, Walk, MeetsFile, MissesName;
    var d, name := Walk(Abs(v), 0, Dirs(Trimmed(path))), Last(Trimmed(path));
    DeleteAnswers(v, path);
    LookupIn(Abs(v), d, name);
  }

  /** With or without the trailing slash, GET walks to the same place. */
  lemma TrimmedComponents(path: Name)
    requires Last(Trimmed(path)) != ""
    ensures Components(path) == Components(Trimmed(path)) == Dirs(Trimmed(path)) + [Last(Trimmed(path))]
  {
    hide Dirs, Last;
    if Trimmed(path) != path {
      assert path == Trimmed(path) + "/";
      TrailingSlash(Trimmed(path));
    }
  }

  lemma WalkToEntry(N: map<int, Node>, path: Name, d: int, e: int)
    requires Tree(N) && NamesEntry(N, path, d, e)
    ensures Walk(N, 0, Components(path)) == N[d].entries[e].inum
  {
    hide Components, Find, Dirs, Last;
    var names := Trimmed(path);
    NegativesOutside(N);
    TrimmedComponents(path);
    var q := Dirs(names) + [Last(names)];
    assert q[..|q| - 1] == Dirs(names);
    WalkLast(N, 0, q);
    assert Lookup(N, d, Last(names)) == N[d].entries[e].inum;
  }

  /** The listing of a directory depends only on which of its entries are directories. */
  lemma {:induction false} ListingStays(N: map<int, Node>, M: map<int, Node>, es: seq<DirEnt>)
    requires forall i :: 0 <= i < |es| ==> es[i].inum in N && es[i].inum in M
    requires forall i :: 0 <= i < |es| ==> N[es[i].inum].DirNode? == M[es[i].inum].DirNode?
    ensures Listing(N, es) == Listing(M, es)
  {
    if es != [] {
      ListingStays(N, M, es[..|es| - 1]);
    }
  }

  lemma AnswerAfterRemoval(N: map<int, Node>, d: int, e: int, m: int)
    requires Tree(N) && d in N && N[d].DirNode? && 0 <= e < |N[d].entries| && Removable(N, N[d].entries[e].inum)
    requires m != d && m != N[d].entries[e].inum
    ensures Tree(Removed(N, d, e))
    ensures Answer(Removed(N, d, e), m) == Answer(N, m)
  {
    hide Tree, Removable;
    RemovedTree(N, d, e);
    var M := Removed(N, d, e);
    if m in N && N[m].DirNode? {
      EntriesInside(N, m);
      EntriesInside(M, m);
      ListingStays(N, M, N[m].entries);
    }
  }

  /** After a successful DELETE of a path, GET of it answers "not found".  GET of any other path answers "not
      found" as well if its walk came by the removed object, and otherwise as before, unless it leads to the
      directory that lost the entry. */
  lemma DeleteThenGet(v: Vol, path: Name, other: Name)
    requires Consistent(v) && Delete(v, path).1 == Ok
    ensures Consistent(Delete(v, path).0)
    ensures var N, M := Abs(v), Abs(Delete(v, path).0);
            && Get(M, path) == ClientError(NOT_FOUND)
            && exists d, e :: NamesEntry(N, path, d, e) && GetAfter(N, M, d, e, other)
  {
    hide Owned, GoodObjs, Tree, Abs, Delete, Components, Get, Find;
    DeleteEffect(v, path);
    var w := Delete(v, path).0;
    var d, e :| NamesEntry(Abs(v), path, d, e) && Deleted(v, d, e, w);
    GetRemoved(Abs(v), d, e, path);
    GetRemoved(Abs(v), d, e, other);
    WalkToEntry(Abs(v), path, d, e);
    EntryNonNegative(Abs(v), d, e);
    VisitsEnd(Abs(v), 0, Components(path));
    assert GetAfter(Abs(v), Abs(w), d, e, other);
  }

  /** What GET answers in `M`, where entry `e` of directory `d` is gone. */
  ghost predicate GetAfter(N: map<int, Node>, M: map<int, Node>, d: int, e: int, other: Name)
    requires Tree(N) && Tree(M) && d in N && N[d].DirNode? && 0 <= e < |N[d].entries|
  {
    var c, names := N[d].entries[e].inum, Components(other);
    && (Visits(N, 0, names, c) ==> Get(M, other) == ClientError(NOT_FOUND))
    && (!Visits(N, 0, names, c) && Walk(N, 0, names) != d ==> Get(M, other) == Get(N, other))
    && (Plain(names) && Walk(N, 0, names) >= 0 && Walk(N, 0, names) != c ==> !Visits(N, 0, names, c))
  }

  lemma GetRemoved(N: map<int, Node>, d: int, e: int, other: Name)
    requires Tree(N) && d in N && N[d].DirNode? && 0 <= e < |N[d].entries| && Removable(N, N[d].entries[e].inum)
    ensures Tree(Removed(N, d, e))
    ensures GetAfter(N, Removed(N, d, e), d, e, other)
  {
    hide Tree, Removable, Components, Answer, Removed, Visits;
    var c, names := N[d].entries[e].inum, Components(other);
    RootIn(N);
    RemovedTarget(N, d, e);
    RemovedTree(N, d, e);
    NegativesOutside(Removed(N, d, e));
    WalkAfterRemoval(N, d, e, 0, names);
    EntryNonNegative(N, d, e);
    var m := Walk(N, 0, names);
    if m == c { VisitsEnd(N, 0, names); }
    if m != d && m != c { AnswerAfterRemoval(N, d, e, m); }
    if Plain(names) && m >= 0 && m != c { PlainWalkAvoids(N, 0, names, c); }
    NotFoundAnswer(Removed(N, d, e));
  }

  lemma NotFoundAnswer(M: map<int, Node>)
    requires Tree(M)
    ensures Answer(M, -ENOTFOUND) == ClientError(NOT_FOUND)
  {
    NegativesOutside(M);
  }
}
