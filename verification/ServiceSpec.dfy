/** GET and PUT as functions on consistent volumes, and what creating the directories on the way does. */
module ServiceSpec {
  import opened Ufs
  import opened Volume
  import opened Storage
  import opened Objects
  import opened Namespace
  import opened Consistency
  import opened CreateSpec
  import opened WriteSpec
  import opened Paths
  import opened Growth
  import opened PathText

  datatype Reply =
    | Ok
    | Text(text: string)
    | Bytes(content: seq<bv8>)
    | ClientError(code: int)
    | LengthError

  const BAD_REQUEST := 400
  const FORBIDDEN := 403
  const NOT_FOUND := 404
  const INSUFFICIENT_STORAGE := 507

  // GET

  /** One line for each entry, in the directory's order, with a slash behind the names of directories. */
  ghost function Listing(N: map<int, Node>, es: seq<DirEnt>): string
    requires forall i :: 0 <= i < |es| ==> es[i].inum in N
  {
    if es == [] then ""
    else
      var last := |es| - 1;
      Listing(N, es[..last]) + es[last].name + (if N[es[last].inum].DirNode? then "/\n" else "\n")
  }

  lemma EntriesInside(N: map<int, Node>, n: int)
    requires Tree(N) && n in N && N[n].DirNode?
    ensures forall i :: 0 <= i < |N[n].entries| ==> N[n].entries[i].inum in N
  {
    var at: map<int, Loc>, rank: map<int, nat> :| Named(N, at, rank);
    forall i | 0 <= i < |N[n].entries|
      ensures N[n].entries[i].inum in N
    {
      assert GoodEntry(N, at, rank, n, i);
    }
  }

  /** What a GET that reached object `m` answers.  A file without bytes cannot be answered at all. */
  ghost function Answer(N: map<int, Node>, m: int): Reply
    requires Tree(N)
  {
    if m !in N then ClientError(NOT_FOUND)
    else
      match N[m]
      case FileNode(content) => if content == [] then LengthError else Bytes(content)
      case DirNode(_, entries) => EntriesInside(N, m); Text(Listing(N, entries))
  }

  ghost function Get(N: map<int, Node>, path: Name): Reply
    requires Tree(N)
  {
    Answer(N, Walk(N, 0, Components(path)))
  }

  // PUT

  /** The directory that the names lead to, created where it is missing, or a negative number. */
  ghost function PutDirs(v: Vol, inum: int, dirs: seq<Name>): (r: (Vol, int))
    requires Consistent(v)
    decreases |dirs|
  {
    if dirs == [] then (v, inum)
    else
      var found := Lookup(Abs(v), inum, dirs[0]);
      if found == -ENOTFOUND then
        var out := Create(v, inum, UFS_DIRECTORY, dirs[0]);
        if out.ret < 0 then (out.vol, out.ret)
        else
          CreateRefines(v, inum, UFS_DIRECTORY, dirs[0]);
          PutDirs(out.vol, out.ret, dirs[1..])
      else if found < 0 then (v, found)
      else PutDirs(v, found, dirs[1..])
  }

  /** The content goes into file `m`. */
  ghost function PutContent(v: Vol, m: int, content: seq<bv8>, leftover: Page): (Vol, Reply)
    requires Consistent(v)
  {
    var out := Write(v, m, content, leftover);
    (out.vol, if out.ret < 0 then ClientError(INSUFFICIENT_STORAGE) else Ok)
  }

  /** The content goes into the file of that name in directory `d`, created if it is missing. */
  ghost function PutFile(v: Vol, d: int, name: Name, content: seq<bv8>, leftover: Page): (Vol, Reply)
    requires Consistent(v)
  {
    var found := Lookup(Abs(v), d, name);
    if found == -ENOTFOUND then
      var out := Create(v, d, UFS_REGULAR_FILE, name);
      if out.ret < 0 then (out.vol, ClientError(INSUFFICIENT_STORAGE))
      else
        CreateRefines(v, d, UFS_REGULAR_FILE, name);
        PutContent(out.vol, out.ret, content, leftover)
    else if found < 0 then (v, ClientError(BAD_REQUEST))
    else PutContent(v, found, content, leftover)
  }

  ghost function Put(v: Vol, path: Name, content: seq<bv8>, leftover: Page): (Vol, Reply)
    requires Consistent(v)
  {
    hide Create, Owned, GoodObjs, Tree;
    RootDir(v);
    PutDirsGrows(v, 0, Dirs(path));
    var (v1, d) := PutDirs(v, 0, Dirs(path));
    if d < 0 || Last(path) == "" then (v1, ClientError(BAD_REQUEST))
    else PutFile(v1, d, Last(path), content, leftover)
  }

  lemma RootDir(v: Vol)
    requires Consistent(v)
    ensures 0 in Abs(v)
  {
    RootIn(Abs(v));
  }

  /** Everything that is new is a directory on the way. */
  ghost predicate OnlyDirsAlong(N: map<int, Node>, M: map<int, Node>, s: int, names: Path) {
    forall n :: n in M && n !in N ==> M[n].DirNode? && OnTheWay(M, s, names, n)
  }

  ghost predicate OnTheWay(M: map<int, Node>, s: int, names: Path, n: int) {
    exists j :: 0 <= j <= |names| && Walk(M, s, names[..j]) == n
  }

  lemma OnTheWayLater(M: map<int, Node>, s: int, names: Path, t: int, n: int)
    requires names != [] && s >= 0 && Lookup(M, s, names[0]) == t && OnTheWay(M, t, names[1..], n)
    ensures OnTheWay(M, s, names, n)
  {
    var j :| 0 <= j <= |names[1..]| && Walk(M, t, names[1..][..j]) == n;
    assert names[..j + 1][1..] == names[1..][..j];
    assert Walk(M, s, names[..j + 1]) == n;
  }

  lemma OnTheWayStart(M: map<int, Node>, s: int, names: Path)
    ensures OnTheWay(M, s, names, s)
  {
    assert Walk(M, s, names[..0]) == s;
  }

  /** Creating the missing directories keeps everything there was, adds only directories on the way, and ends
      where the names lead. */
  ghost predicate GrewAlong(v: Vol, s: int, names: Path, r: (Vol, int))
    requires Sound(v)
  {
    && Consistent(r.0) && r.0.super == v.super
    && Extends(Abs(v), Abs(r.0))
    && OnlyDirsAlong(Abs(v), Abs(r.0), s, names)
    && (r.1 >= 0 ==> r.1 in Abs(r.0) && Walk(Abs(r.0), s, names) == r.1)
  }

  lemma {:induction false} PutDirsGrows(v: Vol, s: int, names: Path)
    requires Consistent(v) && s in Abs(v)
    ensures GrewAlong(v, s, names, PutDirs(v, s, names))
    decreases |names|
  {
    hide Owned, GoodObjs, Tree, Create, CreateNew, Abs;
    ExtendsItself(Abs(v));
    LookupNonNegative(Abs(v), s);
    if names != [] {
      var found := Lookup(Abs(v), s, names[0]);
      LookupIn(Abs(v), s, names[0]);
      if found == -ENOTFOUND {
        CreateRefines(v, s, UFS_DIRECTORY, names[0]);
        var out := Create(v, s, UFS_DIRECTORY, names[0]);
        if out.ret >= 0 {
          EnteredExtends(Abs(v), s, names[0], out.ret, NewNode(UFS_DIRECTORY, s));
          PutDirsGrows(out.vol, out.ret, names[1..]);
          EnteredName(Abs(v), s, names[0], out.ret, NewNode(UFS_DIRECTORY, s));
          GrewStep(v, s, names, out.vol, out.ret, PutDirs(out.vol, out.ret, names[1..]));
        }
      } else if found >= 0 {
        PutDirsGrows(v, found, names[1..]);
        GrewStep(v, s, names, v, found, PutDirs(v, found, names[1..]));
      }
    }
  }

  lemma EnteredName(N: map<int, Node>, n: int, name: Name, i: int, node: Node)
    requires Tree(N) && n in N && N[n].DirNode? && GoodName(name) && Lookup(N, n, name) == -ENOTFOUND
    requires 0 <= i && i !in N
    ensures Lookup(Entered(N, n, name, i, node), n, name) == i
  {
    LookupEntered(N, n, name, i, node, n, name);
  }

  lemma GrewStep(v: Vol, s: int, names: Path, v1: Vol, t: int, r: (Vol, int))
    requires Sound(v) && Sound(v1) && names != [] && s >= 0 && t >= 0
    requires v1.super == v.super && Extends(Abs(v), Abs(v1))
    requires Lookup(Abs(v1), s, names[0]) == t
    requires forall n :: n in Abs(v1) && n !in Abs(v) ==> n == t && Abs(v1)[t].DirNode?
    requires GrewAlong(v1, t, names[1..], r)
    ensures GrewAlong(v, s, names, r)
  {
    hide Owned, GoodObjs, Tree, Abs, OnTheWay;
    var N, N1, M := Abs(v), Abs(v1), Abs(r.0);
    ExtendsOn(N, N1, M);
    LookupKept(N1, M, s, names[0]);
    forall n | n in M && n !in N
      ensures M[n].DirNode? && OnTheWay(M, s, names, n)
    {
      if n !in N1 {
        assert OnTheWay(M, t, names[1..], n);
      } else {
        OnTheWayStart(M, t, names[1..]);
        assert Kept(N1[t], M[t]);
      }
      OnTheWayLater(M, s, names, t, n);
    }
  }
}
