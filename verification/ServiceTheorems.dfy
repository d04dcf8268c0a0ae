/** What PUT, GET and DELETE promise together. */
module ServiceTheorems {
  import opened Ufs
  import opened Bits
  import opened Volume
  import opened Storage
  import opened Objects
  import opened Namespace
  import opened Consistency
  import opened CreateSpec
  import opened WriteSpec
  import opened Paths
  import opened Growth
  import opened PathText
  import opened ServiceSpec
  import opened Strings
  import Mkfs

  // PUT

  /** Every object of `N` but file `m` is still there in `M`, and `m` is still a file. */
  ghost predicate ExtendsBut(N: map<int, Node>, M: map<int, Node>, m: int) {
    forall n :: n in N ==> n in M && if n == m then N[n].FileNode? && M[n].FileNode? else Kept(N[n], M[n])
  }

  lemma LookupKeptBut(N: map<int, Node>, M: map<int, Node>, m: int, n: int, x: Name)
    requires ExtendsBut(N, M, m) && Lookup(N, n, x) >= 0
    ensures Lookup(M, n, x) == Lookup(N, n, x)
  {
    assert n != m && Kept(N[n], M[n]);
    if x != "." && x != ".." {
      FindKept(N[n].entries, M[n].entries, x);
    }
  }

  lemma {:induction false} WalkKeptBut(N: map<int, Node>, M: map<int, Node>, m: int, n: int, path: Path)
    requires ExtendsBut(N, M, m) && Walk(N, n, path) >= 0
    ensures Walk(M, n, path) == Walk(N, n, path)
    decreases |path|
  {
    if path != [] && n >= 0 && Lookup(N, n, path[0]) >= 0 {
      LookupKeptBut(N, M, m, n, path[0]);
      WalkKeptBut(N, M, m, Lookup(N, n, path[0]), path[1..]);
    }
  }

  /** The only new object, if any, is `m`. */
  ghost predicate OnlyNew(N: map<int, Node>, M: map<int, Node>, m: int) {
    forall n :: n in M && n !in N ==> n == m
  }

  /** The file of that name holds the content, and nothing else changed but, perhaps, its directory. */
  ghost predicate FileHolds(v: Vol, d: int, name: Name, content: seq<bv8>, w: Vol)
    requires Sound(v) && Sound(w)
  {
    var m := Lookup(Abs(w), d, name);
    && m >= 0 && m in Abs(w) && Abs(w)[m] == FileNode(content) && content != []
    && ExtendsBut(Abs(v), Abs(w), m) && OnlyNew(Abs(v), Abs(w), m)
  }

  /** Nothing is lost, and the only new object, if any, is an empty file of that name. */
  ghost predicate FileMissed(v: Vol, d: int, name: Name, w: Vol)
    requires Sound(v) && Sound(w)
  {
    && Extends(Abs(v), Abs(w))
    && forall n :: n in Abs(w) && n !in Abs(v) ==> Abs(w)[n] == FileNode([]) && n == Lookup(Abs(w), d, name)
  }

  lemma PutContentEffect(v: Vol, d: int, name: Name, m: int, content: seq<bv8>, leftover: Page)
    requires Consistent(v) && d in Abs(v) && Lookup(Abs(v), d, name) == m >= 0
    ensures var r := PutContent(v, m, content, leftover);
            && Consistent(r.0) && r.0.super == v.super
            && (r.1 == Ok || r == (v, ClientError(INSUFFICIENT_STORAGE)))
            && (r.1 == Ok ==> FileHolds(v, d, name, content, r.0))
  {
    hide Owned, GoodObjs, Tree, Write, Abs, Lookup;
    WriteRefines(v, m, content, leftover);
    var r := PutContent(v, m, content, leftover);
    if r.1 == Ok {
      LookupOverwritten(Abs(v), m, content, d, name);
      forall n | n in Abs(v)
        ensures n in Abs(r.0) && if n == m then Abs(v)[n].FileNode?
                && Abs(r.0)[n].FileNode? else Kept(Abs(v)[n], Abs(r.0)[n])
      {
      }
    }
  }

  lemma LookupOverwritten(N: map<int, Node>, m: int, content: seq<bv8>, d: int, name: Name)
    requires m in N && N[m].FileNode?
    ensures Lookup(N[m := FileNode(content)], d, name) == Lookup(N, d, name)
  {
  }

  lemma PutFileEffect(v: Vol, d: int, name: Name, content: seq<bv8>, leftover: Page)
    requires Consistent(v) && d in Abs(v)
    ensures var r := PutFile(v, d, name, content, leftover);
            && Consistent(r.0) && r.0.super == v.super
            && if r.1 == Ok then FileHolds(v, d, name, content, r.0) else FileMissed(v, d, name, r.0)
  {
    hide Owned, GoodObjs, Tree, Create, Write, PutContent, Abs, Kept;
    ExtendsItself(Abs(v));
    LookupIn(Abs(v), d, name);
    var found := Lookup(Abs(v), d, name);
    if found == -ENOTFOUND {
      CreateRefines(v, d, UFS_REGULAR_FILE, name);
      var out := Create(v, d, UFS_REGULAR_FILE, name);
      if out.ret >= 0 {
        EnteredExtends(Abs(v), d, name, out.ret, FileNode([]));
        EnteredName(Abs(v), d, name, out.ret, FileNode([]));
        PutContentEffect(out.vol, d, name, out.ret, content, leftover);
        var r := PutContent(out.vol, out.ret, content, leftover);
        if r.1 == Ok { HoldsSince(v, out.vol, d, name, content, r.0, out.ret); }
      }
    } else if found >= 0 {
      PutContentEffect(v, d, name, found, content, leftover);
    }
  }

  lemma HoldsSince(v: Vol, v1: Vol, d: int, name: Name, content: seq<bv8>, w: Vol, i: int)
    requires Sound(v) && Sound(v1) && Sound(w)
    requires Extends(Abs(v), Abs(v1)) && i !in Abs(v) && Lookup(Abs(v1), d, name) == i >= 0
    requires forall n :: n in Abs(v1) && n !in Abs(v) ==> n == i
    requires FileHolds(v1, d, name, content, w)
    ensures FileHolds(v, d, name, content, w)
  {
    hide Owned, GoodObjs, Abs, Lookup;
    var N, N1, M := Abs(v), Abs(v1), Abs(w);
    var m := Lookup(M, d, name);
    LookupKeptBut(N1, M, m, d, name);
    forall n | n in N
      ensures n in M && Kept(N[n], M[n])
    {
      assert Kept(N[n], N1[n]) && n != i && Kept(N1[n], M[n]);
    }
    assert m == i;
  }

  /** A successful PUT: the path leads to a file with exactly the content, which is not empty, and every other
      object is still there, directories with at least their old entries. */
  ghost predicate PutDone(v: Vol, path: Name, content: seq<bv8>, w: Vol)
    requires Sound(v) && Sound(w)
  {
    var m := Walk(Abs(w), 0, Components(path));
    && m in Abs(w) && Abs(w)[m] == FileNode(content) && content != []
    && ExtendsBut(Abs(v), Abs(w), m)
  }

  /** A failing PUT: nothing is lost, and what is new is a directory on the way or an empty file at the end. */
  ghost predicate PutContained(v: Vol, path: Name, w: Vol)
    requires Sound(v) && Sound(w)
  {
    && Extends(Abs(v), Abs(w))
    && forall n :: n in Abs(w) && n !in Abs(v) ==>
         || (Abs(w)[n].DirNode? && OnTheWay(Abs(w), 0, Dirs(path), n))
         || (Abs(w)[n] == FileNode([]) && n == Walk(Abs(w), 0, Components(path)))
  }

  lemma WalkComponents(N: map<int, Node>, path: Name, d: int)
    requires Last(path) != "" && Walk(N, 0, Dirs(path)) == d >= 0
    ensures Walk(N, 0, Components(path)) == Lookup(N, d, Last(path))
  {
    var names := Components(path);
    assert names[..|names| - 1] == Dirs(path);
    WalkLast(N, 0, names);
  }

  lemma PutEffect(v: Vol, path: Name, content: seq<bv8>, leftover: Page)
    requires Consistent(v)
    ensures var r := Put(v, path, content, leftover);
            && Consistent(r.0) && r.0.super == v.super
            && if r.1 == Ok then PutDone(v, path, content, r.0) else PutContained(v, path, r.0)
  {
    hide Owned, GoodObjs, Tree, Create, Abs, PutFile, PutDirs, Kept, OnTheWay, Components;
    RootDir(v);
    PutDirsGrows(v, 0, Dirs(path));
    var (v1, d) := PutDirs(v, 0, Dirs(path));
    if d >= 0 && Last(path) != "" {
      PutFileEffect(v1, d, Last(path), content, leftover);
      var r := PutFile(v1, d, Last(path), content, leftover);
      if r.1 == Ok {
        DoneSince(v, v1, path, d, content, r.0);
      } else {
        ContainedSince(v, v1, path, d, r.0);
      }
    }
  }

  lemma DoneSince(v: Vol, v1: Vol, path: Name, d: int, content: seq<bv8>, w: Vol)
    requires Sound(v) && Sound(v1) && Sound(w) && Last(path) != ""
    requires Extends(Abs(v), Abs(v1)) && OnlyDirsAlong(Abs(v), Abs(v1), 0, Dirs(path))
    requires Walk(Abs(v1), 0, Dirs(path)) == d >= 0 && FileHolds(v1, d, Last(path), content, w)
    ensures PutDone(v, path, content, w)
  {
    hide Owned, GoodObjs, Abs, OnTheWay, Components;
    var N, N1, M := Abs(v), Abs(v1), Abs(w);
    var m := Lookup(M, d, Last(path));
    WalkKeptBut(N1, M, m, 0, Dirs(path));
    WalkComponents(M, path, d);
    forall n | n in N
      ensures n in M && if n == m then N[n].FileNode? && M[n].FileNode? else Kept(N[n], M[n])
    {
      assert Kept(N[n], N1[n]);
      assert n != m ==> Kept(N1[n], M[n]);
    }
  }

  lemma ContainedSince(v: Vol, v1: Vol, path: Name, d: int, w: Vol)
    requires Sound(v) && Consistent(v1) && Sound(w) && Last(path) != ""
    requires Extends(Abs(v), Abs(v1)) && OnlyDirsAlong(Abs(v), Abs(v1), 0, Dirs(path))
    requires Walk(Abs(v1), 0, Dirs(path)) == d >= 0 && FileMissed(v1, d, Last(path), w)
    ensures PutContained(v, path, w)
  {
    hide Owned, GoodObjs, Tree, Abs, Components;
    var N, N1, M := Abs(v), Abs(v1), Abs(w);
    NegativesOutside(N1);
    ExtendsOn(N, N1, M);
    WalkKept(N1, M, 0, Dirs(path));
    WalkComponents(M, path, d);
    forall n | n in M && n !in N && n in N1
      ensures M[n].DirNode? && OnTheWay(M, 0, Dirs(path), n)
    {
      assert Kept(N1[n], M[n]);
      assert OnTheWay(N1, 0, Dirs(path), n);
      OnTheWayKept(N1, M, 0, Dirs(path), n);
    }
  }

  lemma OnTheWayKept(N: map<int, Node>, M: map<int, Node>, s: int, names: Path, n: int)
    requires Extends(N, M) && OnTheWay(N, s, names, n) && n >= 0
    ensures OnTheWay(M, s, names, n)
  {
    var j :| 0 <= j <= |names| && Walk(N, s, names[..j]) == n;
    WalkKept(N, M, s, names[..j]);
  }

  /** After a successful PUT of a path, GET of it answers exactly the content, and GET of any path that led to
      another file answers as before. */
  lemma PutThenGet(v: Vol, path: Name, content: seq<bv8>, leftover: Page, other: Name)
    requires Consistent(v) && Put(v, path, content, leftover).1 == Ok
    ensures var w := Put(v, path, content, leftover).0;
            && Consistent(w)
            && Get(Abs(w), path) == Bytes(content)
            && var f := Walk(Abs(v), 0, Components(other));
            (f in Abs(v) && Abs(v)[f].FileNode? && f != Walk(Abs(w), 0, Components(path)) ==>
               Get(Abs(w), other) == Get(Abs(v), other))
  {
    hide Owned, GoodObjs, Tree, Abs, Put, Components;
    PutEffect(v, path, content, leftover);
    var w := Put(v, path, content, leftover).0;
    var f := Walk(Abs(v), 0, Components(other));
    NegativesOutside(Abs(v));
    if f in Abs(v) {
      WalkKeptBut(Abs(v), Abs(w), Walk(Abs(w), 0, Components(path)), 0, Components(other));
    }
  }

  // GET

  /** A listing is its lines, one behind the other. */
  lemma {:induction false} ListingIs(N: map<int, Node>, es: seq<DirEnt>)
    requires forall i :: 0 <= i < |es| ==> es[i].inum in N
    ensures Listing(N, es)
            == Concat(seq(|es|, i requires 0 <= i < |es| =>
                        es[i].name + (if N[es[i].inum].DirNode? then "/\n" else "\n")))
  {
    hide Concat;
    var lines := seq(|es|, i requires 0 <= i < |es| =>
                       es[i].name + (if N[es[i].inum].DirNode? then "/\n" else "\n"));
    if es == [] {
      assert lines == [];
      ConcatNone();
    } else {
      var last := |es| - 1;
      ListingIs(N, es[..last]);
      var before := seq(last, i requires 0 <= i < last =>
                          es[..last][i].name + (if N[es[..last][i].inum].DirNode? then "/\n" else "\n"));
      assert lines == before + [lines[last]];
      ConcatLast(before, lines[last]);
    }
  }

  /** Which answer GET gives: a walk that ends before its names do is "not found", a file's answer is its bytes, and a
      directory's a line for each entry, in their order, with a slash behind the names of directories. */
  lemma GetAnswers(N: map<int, Node>, path: Name)
    requires Tree(N)
    ensures var names := if Last(path) == "" then Dirs(path) else Dirs(path) + [Last(path)];
            var m, r := Walk(N, 0, names), Get(N, path);
            && (r == ClientError(404) <==> MeetsFile(N, 0, names) || MissesName(N, 0, names))
            && (r == ClientError(404) <==> m !in N)
            && (m in N && N[m].FileNode? && N[m].content == [] ==> r == LengthError)
            && (m in N && N[m].FileNode? && N[m].content != [] ==> r == Bytes(N[m].content))
            && (m in N && N[m].DirNode? ==>
                  var es := N[m].entries;
                  && (forall i :: 0 <= i < |es| ==> es[i].inum in N)
                  && r == Text(Concat(seq(|es|, i requires 0 <= i < |es| =>
                                 es[i].name + (if N[es[i].inum].DirNode? then "/\n" else "\n")))))
  {
    hide Tree, Walk, MeetsFile, MissesName, Listing;
    var m := Walk(N, 0, Components(path));
    RootIn(N);
    WalkEnds(N, 0, Components(path));
    if m in N && N[m].DirNode? {
      EntriesInside(N, m);
      ListingIs(N, N[m].entries);
    }
  }

  /** GET fails inside the server exactly for a path that leads to an empty file. */
  lemma GetFailsIff(N: map<int, Node>, path: Name)
    requires Tree(N)
    ensures var m := Walk(N, 0, Components(path));
            Get(N, path) == LengthError <==> m in N && N[m] == FileNode([])
  {
    hide Tree;
  }

  /** An empty file is what a PUT without content makes: on a fresh volume it is refused for lack of storage, and yet
      leaves the file, which GET then fails for. */
  lemma EmptyPut(v: Vol, name: Name, leftover: Page)
    requires Mkfs.OnlyRoot(v) && GoodName(name) && '/' !in name
    ensures Consistent(v)
    ensures var r := Put(v, name, [], leftover);
            && r.1 == ClientError(INSUFFICIENT_STORAGE)
            && Consistent(r.0)
            && Get(Abs(v), name) == ClientError(NOT_FOUND) && Get(Abs(r.0), name) == LengthError
  {
    hide Owns, GoodObjs, Tree, Abs, Create, Get, Put, Lookup;
    Mkfs.OnlyRootConsistent(v);
    var N := Abs(v);
    NoEntryYet(N, name);
    FreshCreates(v, UFS_REGULAR_FILE, name);
    CreateRefines(v, 0, UFS_REGULAR_FILE, name);
    var out := Create(v, 0, UFS_REGULAR_FILE, name);
    EnteredName(N, 0, name, out.ret, FileNode([]));
    PutOneName(v, name, [], leftover);
    GetOneName(N, name);
    GetOneName(Abs(out.vol), name);
  }

  lemma NoEntryYet(N: map<int, Node>, name: Name)
    requires N == map[0 := DirNode(0, [])] && GoodName(name)
    ensures Lookup(N, 0, name) == -ENOTFOUND
  {
  }

  /** A path of one name. */
  lemma PutOneName(v: Vol, name: Name, content: seq<bv8>, leftover: Page)
    requires Consistent(v) && '/' !in name && name != ""
    ensures Put(v, name, content, leftover) == PutFile(v, 0, name, content, leftover)
  {
    hide Owned, GoodObjs, Tree, Abs, PutFile;
    CutNone(name);
  }

  lemma GetOneName(N: map<int, Node>, name: Name)
    requires Tree(N) && '/' !in name && name != ""
    ensures Get(N, name) == Answer(N, Lookup(N, 0, name))
  {
    hide Tree, Lookup, Answer;
    CutNone(name);
    var names: Path := [name];
    assert Components(name) == names && names[1..] == [];
    assert Walk(N, 0, names) == Walk(N, Lookup(N, 0, name), names[1..]);
  }

  /** On a fresh volume there is room for one more object of either type. */
  lemma FreshCreates(v: Vol, typ: int, name: Name)
    requires Mkfs.OnlyRoot(v) && GoodName(name) && IsType(typ) && Consistent(v) && Lookup(Abs(v), 0, name) == -ENOTFOUND
    ensures Create(v, 0, typ, name).ret >= 0
  {
    hide Owns, GoodObjs, Tree, Abs, Create, Lookup;
    CreateSucceedsIff(v, 0, typ, name);
    assert !v.ibits[1] && !v.dbits[1];
    ClearSome(v.ibits, v.super.numInodes);
    ClearSome(v.dbits, v.super.numData);
  }

  // PUT and atomicity

  /** Whether the first thing missing on the way can be created. */
  ghost predicate FirstCreationSucceeds(v: Vol, s: int, dirs: Path, name: Name)
    requires Consistent(v)
    decreases |dirs|
  {
    if dirs == [] then
      name != "" && Lookup(Abs(v), s, name) == -ENOTFOUND && Create(v, s, UFS_REGULAR_FILE, name).ret >= 0
    else
      var found := Lookup(Abs(v), s, dirs[0]);
      if found == -ENOTFOUND then Create(v, s, UFS_DIRECTORY, dirs[0]).ret >= 0
      else found >= 0 && FirstCreationSucceeds(v, found, dirs[1..], name)
  }

  lemma CreationShows(v: Vol, s: int, typ: int, name: Name)
    requires Consistent(v) && IsType(typ) && Lookup(Abs(v), s, name) == -ENOTFOUND && Create(v, s, typ, name).ret >= 0
    ensures var out := Create(v, s, typ, name);
            Consistent(out.vol) && out.ret !in Abs(v) && out.ret in Abs(out.vol) && Extends(Abs(v), Abs(out.vol))
  {
    hide Owned, GoodObjs, Tree, Create, Abs;
    CreateRefines(v, s, typ, name);
    var out := Create(v, s, typ, name);
    EnteredExtends(Abs(v), s, name, out.ret, NewNode(typ, s));
  }

  /** Up to the first missing name nothing changes, and from the first creation on something has. */
  lemma {:induction false} PutDirsChange(v: Vol, s: int, dirs: Path, name: Name)
    requires Consistent(v) && s in Abs(v)
    ensures var r := PutDirs(v, s, dirs);
            && Consistent(r.0)
            && (r.0 == v ==>
                  (FirstCreationSucceeds(v, s, dirs, name) <==> r.1 >= 0 && FirstCreationSucceeds(v, r.1, [], name)))
            && (r.0 != v ==> FirstCreationSucceeds(v, s, dirs, name) && exists n :: n in Abs(r.0) && n !in Abs(v))
    decreases |dirs|
  {
    hide Owned, GoodObjs, Tree, Create, Abs;
    LookupNonNegative(Abs(v), s);
    if dirs != [] {
      var found := Lookup(Abs(v), s, dirs[0]);
      LookupIn(Abs(v), s, dirs[0]);
      if found == -ENOTFOUND {
        var out := Create(v, s, UFS_DIRECTORY, dirs[0]);
        CreateRefines(v, s, UFS_DIRECTORY, dirs[0]);
        if out.ret >= 0 {
          CreationShows(v, s, UFS_DIRECTORY, dirs[0]);
          PutDirsGrows(out.vol, out.ret, dirs[1..]);
          assert out.ret in Abs(PutDirs(v, s, dirs).0);
        }
      } else if found >= 0 {
        PutDirsChange(v, found, dirs[1..], name);
      }
    }
  }

  lemma PutFileChange(v: Vol, d: int, name: Name, content: seq<bv8>, leftover: Page)
    requires Consistent(v) && d in Abs(v) && name != "" && PutFile(v, d, name, content, leftover).1 != Ok
    ensures PutFile(v, d, name, content, leftover).0 == v <==> !FirstCreationSucceeds(v, d, [], name)
  {
    hide Owned, GoodObjs, Tree, Create, Write, Abs;
    LookupIn(Abs(v), d, name);
    if Lookup(Abs(v), d, name) == -ENOTFOUND {
      CreateRefines(v, d, UFS_REGULAR_FILE, name);
      var out := Create(v, d, UFS_REGULAR_FILE, name);
      if out.ret >= 0 {
        CreationShows(v, d, UFS_REGULAR_FILE, name);
        WriteRefines(out.vol, out.ret, content, leftover);
      }
    } else if Lookup(Abs(v), d, name) >= 0 {
      WriteRefines(v, Lookup(Abs(v), d, name), content, leftover);
    }
  }

  /** A failing PUT leaves the volume as it was exactly if the first thing missing on its way could not be
      created, or nothing was missing: it takes back nothing that it has created. */
  lemma FailingPutKeeps(v: Vol, path: Name, content: seq<bv8>, leftover: Page)
    requires Consistent(v) && Put(v, path, content, leftover).1 != Ok
    ensures Put(v, path, content, leftover).0 == v <==> !FirstCreationSucceeds(v, 0, Dirs(path), Last(path))
  {
    hide Owned, GoodObjs, Tree, Create, Write, Abs, PutFile, PutDirs, FirstCreationSucceeds;
    RootDir(v);
    PutDirsGrows(v, 0, Dirs(path));
    PutDirsChange(v, 0, Dirs(path), Last(path));
    var (v1, d) := PutDirs(v, 0, Dirs(path));
    if Last(path) == "" { NoNameNoCreation(v, d); }
    if d >= 0 && Last(path) != "" {
      if v1 == v {
        PutFileChange(v, d, Last(path), content, leftover);
      } else {
        PutFileEffect(v1, d, Last(path), content, leftover);
      }
    }
  }

  lemma NoNameNoCreation(v: Vol, d: int)
    requires Consistent(v)
    ensures !FirstCreationSucceeds(v, d, [], "")
  {
  }

  lemma FreshHasRoom(v: Vol, name: Name)
    requires Mkfs.OnlyRoot(v) && GoodName(name)
    ensures Consistent(v) && Lookup(Abs(v), 0, name) == -ENOTFOUND && Create(v, 0, UFS_DIRECTORY, name).ret >= 0
  {
    hide Owns, GoodObjs, Tree, Abs, Create, Lookup;
    Mkfs.OnlyRootConsistent(v);
    NoEntryYet(Abs(v), name);
    FreshCreates(v, UFS_DIRECTORY, name);
  }

  lemma SlashBehind(name: Name)
    requires '/' !in name
    ensures Dirs(name + "/") == [name] && Last(name + "/") == ""
  {
    CutNone(name);
    TrailingSlash(name);
  }

  /** PUT is not atomic: on a fresh volume a PUT of a good name with a slash behind it, like "a/", is refused
      as a bad request, and yet leaves a new directory of that name behind. */
  lemma PutIsNotAtomic(v: Vol, name: Name, content: seq<bv8>, leftover: Page)
    requires Mkfs.OnlyRoot(v)
    requires GoodName(name) && '/' !in name
    ensures Consistent(v)
    ensures var r := Put(v, name + "/", content, leftover);
            && r.1 == ClientError(BAD_REQUEST)
            && Consistent(r.0)
            && Lookup(Abs(v), 0, name) == -ENOTFOUND && Lookup(Abs(r.0), 0, name) in Abs(r.0)
  {
    hide Owned, GoodObjs, Tree, Abs, Create, Lookup, Dirs, Last;
    FreshHasRoom(v, name);
    SlashBehind(name);
    CreateRefines(v, 0, UFS_DIRECTORY, name);
    var out := Create(v, 0, UFS_DIRECTORY, name);
    var dirs: seq<Name> := [name];
    assert dirs[1..] == [];
    assert PutDirs(v, 0, dirs) == (out.vol, out.ret);
    EnteredName(Abs(v), 0, name, out.ret, NewNode(UFS_DIRECTORY, 0));
  }
}
