/** When PUT succeeds, and when a failing PUT leaves the volume as it was: conditions on the namespace, the path, the
    length of the content and the size of the volume. */
module PutPlan {
  import opened Ufs
  import opened Bits
  import opened Volume
  import opened Storage
  import opened Objects
  import opened Namespace
  import opened Consistency
  import opened CreateSpec
  import opened WriteSpec
  import opened Paths
  import opened Growth
  import opened PathText
  import opened ServiceSpec
  import opened ServiceTheorems
  import opened Accounting
  import opened Budget

  /** The namespace once all directories on the way are there, if their names allow it, and the directory that they
      lead to; or a negative number.  Room is not asked for. */
  ghost function PlanDirs(N: map<int, Node>, s: int, dirs: Path): (r: (map<int, Node>, int))
    decreases |dirs|
  {
    if dirs == [] then (N, s)
    else
      var found := Lookup(N, s, dirs[0]);
      if found == -ENOTFOUND then
        if CanName(N, s, dirs[0]) then PlanDirs(Added(N, s, dirs[0], UFS_DIRECTORY), Fresh(N), dirs[1..])
        else (N, -EINVALIDNAME)
      else if found < 0 then (N, found)
      else PlanDirs(N, found, dirs[1..])
  }

  datatype Plan = NoPlan | Plan(names: map<int, Node>, file: int)

  /** The namespace once the file is there, old or new, and the file; its content is not yet written. */
  ghost function PlanFile(N: map<int, Node>, d: int, name: Name): Plan {
    var found := Lookup(N, d, name);
    if found == -ENOTFOUND then
      if CanName(N, d, name) then Plan(Added(N, d, name, UFS_REGULAR_FILE), Fresh(N)) else NoPlan
    else if found in N && N[found].FileNode? then Plan(N, found)
    else NoPlan
  }

  ghost function PlanPut(N: map<int, Node>, path: Name): Plan {
    var (M, d) := PlanDirs(N, 0, Dirs(path));
    if d < 0 || Last(path) == "" then NoPlan else PlanFile(M, d, Last(path))
  }

  /** The volume has room for all objects that a PUT comes by, and for `size` bytes in the file. */
  ghost predicate PlanFits(p: Plan, s: Super, size: nat)
    requires s.numInodes >= 0
  {
    && p.Plan? && p.file in p.names && p.names[p.file].FileNode?
    && 0 < size <= 122880
    && Fits(p.names, s)
    && UsedBlocks(p.names, s.numInodes) - BlocksOf(p.names[p.file]) + NumBlocks(size) <= s.numData
  }

  lemma {:induction false} PlanDirsGrows(N: map<int, Node>, s: int, dirs: Path)
    ensures Extends(N, PlanDirs(N, s, dirs).0)
    decreases |dirs|
  {
    hide Extends, Lookup, Added, Fresh, CanName;
    ExtendsItself(N);
    if dirs != [] {
      var found := Lookup(N, s, dirs[0]);
      if found == -ENOTFOUND {
        LookupDirectory(N, s, dirs[0]);
        if CanName(N, s, dirs[0]) {
          var N1 := Added(N, s, dirs[0], UFS_DIRECTORY);
          AddedExtends(N, s, dirs[0], UFS_DIRECTORY);
          PlanDirsGrows(N1, Fresh(N), dirs[1..]);
          ExtendsOn(N, N1, PlanDirs(N1, Fresh(N), dirs[1..]).0);
        }
      } else if found >= 0 {
        PlanDirsGrows(N, found, dirs[1..]);
      }
    }
  }

  lemma LookupDirectory(N: map<int, Node>, s: int, name: Name)
    requires Lookup(N, s, name) == -ENOTFOUND
    ensures s in N && N[s].DirNode?
  {
  }

  /** The directories on the way are created exactly if they can be planned and there is room for all of them. */
  lemma {:induction false} PutDirsPlanned(v: Vol, s: int, dirs: Path)
    requires Consistent(v) && s in Abs(v)
    ensures v.super.numInodes >= 0
    ensures var r, (M, d) := PutDirs(v, s, dirs), PlanDirs(Abs(v), s, dirs);
            && Consistent(r.0)
            && (r.1 >= 0 <==> d >= 0 && Fits(M, v.super))
            && (r.1 >= 0 ==> r.1 == d && Abs(r.0) == M)
    decreases |dirs|
  {
    hide Owned, GoodObjs, Tree, Abs, Create, Fits, Added, Fresh, CanName, Lookup, Extends;
    VolumeFits(v);
    LookupNonNegative(Abs(v), s);
    if dirs != [] {
      var found := Lookup(Abs(v), s, dirs[0]);
      LookupIn(Abs(v), s, dirs[0]);
      if found == -ENOTFOUND {
        CreateBudget(v, s, UFS_DIRECTORY, dirs[0]);
        var out := Create(v, s, UFS_DIRECTORY, dirs[0]);
        CreateRefines(v, s, UFS_DIRECTORY, dirs[0]);
        if CanName(Abs(v), s, dirs[0]) {
          var N1 := Added(Abs(v), s, dirs[0], UFS_DIRECTORY);
          if out.ret >= 0 {
            AddedMember(Abs(v), s, dirs[0], UFS_DIRECTORY);
            PutDirsPlanned(out.vol, out.ret, dirs[1..]);
          } else {
            PlanDirsGrows(N1, Fresh(Abs(v)), dirs[1..]);
            TooMuch(N1, PlanDirs(N1, Fresh(Abs(v)), dirs[1..]).0, v.super);
          }
        }
      } else if found >= 0 {
        PutDirsPlanned(v, found, dirs[1..]);
      }
    }
  }

  lemma AddedMember(N: map<int, Node>, n: int, name: Name, typ: int)
    requires n in N && N[n].DirNode?
    ensures Fresh(N) in Added(N, n, name, typ) && Added(N, n, name, typ)[Fresh(N)] == NewNode(typ, n)
  {
  }

  lemma TooMuch(N: map<int, Node>, M: map<int, Node>, s: Super)
    requires s.numInodes >= 0 && Extends(N, M) && !Fits(N, s)
    ensures !Fits(M, s)
  {
    if Fits(M, s) { LessFits(N, M, s); }
  }

  lemma PutContentPlanned(v: Vol, m: int, content: seq<bv8>, leftover: Page)
    requires Consistent(v) && m in Abs(v)
    ensures v.super.numInodes >= 0
    ensures var r := PutContent(v, m, content, leftover);
            && Consistent(r.0)
            && (r.1 == Ok <==> PlanFits(Plan(Abs(v), m), v.super, |content|))
            && (r.1 == Ok ==> Abs(r.0) == Abs(v)[m := FileNode(content)])
  {
    hide Owned, GoodObjs, Tree, Abs, Write, UsedBlocks, BlocksOf;
    VolumeFits(v);
    WriteBudget(v, m, content, leftover);
  }

  lemma PutFilePlanned(v: Vol, d: int, name: Name, content: seq<bv8>, leftover: Page)
    requires Consistent(v) && d in Abs(v)
    ensures v.super.numInodes >= 0
    ensures var r, p := PutFile(v, d, name, content, leftover), PlanFile(Abs(v), d, name);
            && Consistent(r.0)
            && (r.1 == Ok <==> PlanFits(p, v.super, |content|))
            && (r.1 == Ok ==> Abs(r.0) == p.names[p.file := FileNode(content)])
  {
    hide Owned, GoodObjs, Tree, Abs, Create, Fits, Added, Fresh, CanName, Lookup, PutContent, UsedBlocks, BlocksOf;
    VolumeFits(v);
    var found := Lookup(Abs(v), d, name);
    LookupIn(Abs(v), d, name);
    if found == -ENOTFOUND {
      CreateBudget(v, d, UFS_REGULAR_FILE, name);
      CreateRefines(v, d, UFS_REGULAR_FILE, name);
      var out := Create(v, d, UFS_REGULAR_FILE, name);
      if out.ret >= 0 {
        AddedMember(Abs(v), d, name, UFS_REGULAR_FILE);
        PutContentPlanned(out.vol, out.ret, content, leftover);
      }
    } else if found >= 0 {
      PutContentPlanned(v, found, content, leftover);
    } else {
      NegativesOutside(Abs(v));
    }
  }

  lemma PlanFileGrows(N: map<int, Node>, d: int, name: Name)
    ensures PlanFile(N, d, name).Plan? ==> Extends(N, PlanFile(N, d, name).names)
  {
    hide Extends, Added, Fresh, CanName;
    ExtendsItself(N);
    if Lookup(N, d, name) == -ENOTFOUND {
      LookupDirectory(N, d, name);
      AddedExtends(N, d, name, UFS_REGULAR_FILE);
    }
  }

  /** PUT succeeds exactly if its names can be planned and the volume has room: for all the directories that are
      missing, for the file, and for its content; and then the namespace is the planned one. */
  lemma PutSucceedsIff(v: Vol, path: Name, content: seq<bv8>, leftover: Page)
    requires Consistent(v)
    ensures v.super.numInodes >= 0
    ensures var r, p := Put(v, path, content, leftover), PlanPut(Abs(v), path);
            && Consistent(r.0)
            && (r.1 == Ok <==> PlanFits(p, v.super, |content|))
            && (r.1 == Ok ==> Abs(r.0) == p.names[p.file := FileNode(content)])
  {
    hide Owned, GoodObjs, Tree, Abs, PutDirs, PutFile, PlanDirs, PlanFile, Fits, Extends, UsedBlocks, BlocksOf, Dirs,
        Last;
    RootDir(v);
    PutDirsGrows(v, 0, Dirs(path));
    PutDirsPlanned(v, 0, Dirs(path));
    var (v1, d1) := PutDirs(v, 0, Dirs(path));
    var (M, d) := PlanDirs(Abs(v), 0, Dirs(path));
    if d1 >= 0 {
      PutFilePlanned(v1, d1, Last(path), content, leftover);
    } else if d >= 0 {
      PlanFileGrows(M, d, Last(path));
      var p := PlanFile(M, d, Last(path));
      if p.Plan? { TooMuch(M, p.names, v.super); }
    }
  }

  /** Which answer PUT gives: 400 unless the directories on the way can be named and find room and end in a directory,
      for a last name that is not empty; and then 507 unless the file can be named, is one, and finds room with its
      content. */
  lemma PutAnswers(v: Vol, path: Name, content: seq<bv8>, leftover: Page)
    requires Consistent(v)
    ensures v.super.numInodes >= 0
    ensures var (M, d) := PlanDirs(Abs(v), 0, Dirs(path));
            var r, last, size := Put(v, path, content, leftover).1, Last(path), |content|;
            var reached := d >= 0 && Fits(M, v.super) && d in M && M[d].DirNode? && last != "";
            && (r == ClientError(400) <==> !reached)
            && (r == ClientError(507) <==> reached && !PlanFits(PlanFile(M, d, last), v.super, size))
            && (r == Ok <==> reached && PlanFits(PlanFile(M, d, last), v.super, size))
  {
    hide Owned, GoodObjs, Tree, Abs, PutDirs, PutFile, PlanDirs, PlanFile, Fits, PlanFits, Dirs, Last;
    RootDir(v);
    PutDirsGrows(v, 0, Dirs(path));
    PutDirsPlanned(v, 0, Dirs(path));
    var (v1, d1) := PutDirs(v, 0, Dirs(path));
    if d1 >= 0 {
      FileAnswers(v1, d1, Last(path), content, leftover);
      PutFilePlanned(v1, d1, Last(path), content, leftover);
    }
  }

  lemma FileAnswers(v: Vol, d: int, name: Name, content: seq<bv8>, leftover: Page)
    requires Consistent(v) && d in Abs(v)
    ensures var r := PutFile(v, d, name, content, leftover).1;
            && (r == ClientError(400) <==> Abs(v)[d].FileNode?)
            && (r in [Ok, ClientError(400), ClientError(507)])
  {
    hide Owned, GoodObjs, Tree, Abs, Create, Write, Lookup;
    CreateRefines(v, d, UFS_REGULAR_FILE, name);
    LookupIn(Abs(v), d, name);
  }

  // Atomicity

  /** The first thing missing on the way is missing by a good name, in a directory that can take one more, and there
      is room for it. */
  ghost predicate FirstFits(N: map<int, Node>, s: Super, n: int, dirs: Path, name: Name)
    requires s.numInodes >= 0
    decreases |dirs|
  {
    if dirs == [] then
      name != "" && Lookup(N, n, name) == -ENOTFOUND && CanName(N, n, name)
          && Fits(Added(N, n, name, UFS_REGULAR_FILE), s)
    else
      var found := Lookup(N, n, dirs[0]);
      if found == -ENOTFOUND then CanName(N, n, dirs[0]) && Fits(Added(N, n, dirs[0], UFS_DIRECTORY), s)
      else found >= 0 && FirstFits(N, s, found, dirs[1..], name)
  }

  lemma {:induction false} FirstFitsIff(v: Vol, n: int, dirs: Path, name: Name)
    requires Consistent(v)
    ensures v.super.numInodes >= 0
    ensures FirstFits(Abs(v), v.super, n, dirs, name) <==> FirstCreationSucceeds(v, n, dirs, name)
    decreases |dirs|
  {
    hide Owned, GoodObjs, Tree, Abs, Create, Fits, Added, CanName, Lookup;
    VolumeFits(v);
    if dirs == [] {
      if Lookup(Abs(v), n, name) == -ENOTFOUND { CreateBudget(v, n, UFS_REGULAR_FILE, name); }
    } else {
      var found := Lookup(Abs(v), n, dirs[0]);
      if found == -ENOTFOUND {
        CreateBudget(v, n, UFS_DIRECTORY, dirs[0]);
      } else if found >= 0 {
        FirstFitsIff(v, found, dirs[1..], name);
      }
    }
  }

  /** PUT succeeds or leaves the volume as it was exactly if there is room for all that it comes by, or not even for
      the first thing that is missing, or that cannot be named, or nothing is missing. */
  lemma PutAtomicIff(v: Vol, path: Name, content: seq<bv8>, leftover: Page)
    requires Consistent(v)
    ensures v.super.numInodes >= 0
    ensures var r := Put(v, path, content, leftover);
            r.1 == Ok || r.0 == v <==>
              || PlanFits(PlanPut(Abs(v), path), v.super, |content|)
              || !FirstFits(Abs(v), v.super, 0, Dirs(path), Last(path))
  {
    hide Owned, GoodObjs, Tree, Abs, Put, PlanPut, PlanFits, FirstFits, FirstCreationSucceeds, Dirs, Last;
    PutSucceedsIff(v, path, content, leftover);
    FirstFitsIff(v, 0, Dirs(path), Last(path));
    if Put(v, path, content, leftover).1 != Ok { FailingPutKeeps(v, path, content, leftover); }
  }

  // A path whose end is missing

  /** The plan for the rest of a path, from directory `n` on. */
  ghost function PlanFrom(N: map<int, Node>, n: int, dirs: Path, name: Name): Plan {
    var (M, d) := PlanDirs(N, n, dirs);
    if d < 0 || name == "" then NoPlan else PlanFile(M, d, name)
  }

  ghost predicate NoDots(names: Path) {
    forall i :: 0 <= i < |names| ==> names[i] != "." && names[i] != ".."
  }

  ghost predicate InNumbers(N: map<int, Node>, limit: int) {
    forall m :: m in N ==> 0 <= m < limit
  }

  /** One block more for directory `n` if its blocks are full. */
  ghost function EntryBlocks(N: map<int, Node>, n: int): nat
    requires n in N && N[n].DirNode?
  {
    if (|N[n].entries| + 2) % 128 == 0 then 1 else 0
  }

  /** What it takes to create some directories one below the other, from `n` on, and a file in the last of them. */
  ghost predicate RoomForAll(N: map<int, Node>, s: Super, n: int, dirs: Path, name: Name, size: nat)
    requires s.numInodes >= 0 && n in N && N[n].DirNode?
  {
    && Plain(dirs) && CanName(N, n, if dirs == [] then name else dirs[0]) && GoodName(name)
    && 0 < size <= 122880
    && |N| + |dirs| + 1 <= s.numInodes
    && UsedBlocks(N, s.numInodes) + |dirs| + EntryBlocks(N, n) + NumBlocks(size) <= s.numData
  }

  lemma {:induction false} RangeSize(N: map<int, Node>, k: nat)
    requires forall m :: 0 <= m < k ==> m in N
    ensures k <= |N|
  {
    if k > 0 {
      RangeSize(N - {k - 1}, k - 1);
      assert N.Keys == (N - {k - 1}).Keys + {k - 1};
    }
  }

  /** With a number left, the new object gets one in range, and takes its blocks. */
  lemma AddedCosts(N: map<int, Node>, s: Super, n: int, name: Name, typ: int)
    requires s.numInodes >= 0 && InNumbers(N, s.numInodes) && n in N && N[n].DirNode? && IsType(typ)
             && |N| < s.numInodes
    ensures var M := Added(N, n, name, typ);
            && InNumbers(M, s.numInodes) && |M| == |N| + 1
            && UsedBlocks(M, s.numInodes) == UsedBlocks(N, s.numInodes) + OwnBlocks(typ) + EntryBlocks(N, n)
  {
    hide UsedBlocks;
    AddedSize(N, n, name, typ);
    var i := Fresh(N);
    if i >= s.numInodes { RangeSize(N, s.numInodes); }
    EnteredBlocks(N, n, name, i, NewNode(typ, n), s.numInodes);
    NewNodeBlocks(typ, n);
  }

  lemma PlanFromGrows(N: map<int, Node>, n: int, dirs: Path, name: Name)
    ensures var p := PlanFrom(N, n, dirs, name);
            p.Plan? ==> Extends(N, p.names)
  {
    hide Extends, PlanDirs, PlanFile;
    PlanDirsGrows(N, n, dirs);
    var (M, d) := PlanDirs(N, n, dirs);
    PlanFileGrows(M, d, name);
    var p := PlanFrom(N, n, dirs, name);
    if p.Plan? { ExtendsOn(N, M, p.names); }
  }

  lemma TooMany(N: map<int, Node>, n: int, dirs: Path, name: Name, s: Super, size: nat)
    requires s.numInodes >= 0 && |N| > s.numInodes
    ensures !PlanFits(PlanFrom(N, n, dirs, name), s, size)
  {
    hide PlanFrom, UsedBlocks;
    PlanFromGrows(N, n, dirs, name);
    var p := PlanFrom(N, n, dirs, name);
    if p.Plan? { KeysLess(N, p.names); }
  }

  lemma FilePlanned(N: map<int, Node>, s: Super, n: int, name: Name, size: nat)
    requires s.numInodes >= 0 && InNumbers(N, s.numInodes) && n in N && N[n].DirNode?
    requires Lookup(N, n, name) == -ENOTFOUND && name != ""
    ensures PlanFits(PlanFrom(N, n, [], name), s, size) <==> RoomForAll(N, s, n, [], name, size)
  {
    hide UsedBlocks, Added, Lookup;
    KeysInside(N, n);
    if CanName(N, n, name) {
      AddedMember(N, n, name, UFS_REGULAR_FILE);
      AddedSize(N, n, name, UFS_REGULAR_FILE);
      if |N| < s.numInodes { AddedCosts(N, s, n, name, UFS_REGULAR_FILE); }
      assert BlocksOf(FileNode([])) == 0;
      assert size > 0 ==> NumBlocks(size) >= 0;
    }
  }

  lemma KeysInside(N: map<int, Node>, n: int)
    requires n in N
    ensures PlanDirs(N, n, []) == (N, n)
  {
  }

  /** Below a new directory everything is missing. */
  lemma NewIsEmpty(N: map<int, Node>, n: int, name: Name, next: Name)
    requires n in N && N[n].DirNode? && next != "." && next != ".."
    ensures var M, i := Added(N, n, name, UFS_DIRECTORY), Fresh(N);
            i in M && M[i] == DirNode(n, []) && Lookup(M, i, next) == -ENOTFOUND
  {
  }

  lemma {:induction false} RestPlanned(N: map<int, Node>, s: Super, n: int, dirs: Path, name: Name, size: nat)
    requires s.numInodes >= 0 && InNumbers(N, s.numInodes) && n in N && N[n].DirNode?
    requires NoDots(dirs + [name]) && name != "" && Lookup(N, n, if dirs == [] then name else dirs[0]) == -ENOTFOUND
    ensures PlanFits(PlanFrom(N, n, dirs, name), s, size) <==> RoomForAll(N, s, n, dirs, name, size)
    decreases |dirs|
  {
    hide UsedBlocks, Lookup, Added, Fresh, PlanFits, InNumbers, NoDots;
    if dirs == [] {
      FilePlanned(N, s, n, name, size);
    } else if !CanName(N, n, dirs[0]) {
      assert PlanFrom(N, n, dirs, name) == NoPlan;
      NoPlanNoRoom(s, size);
    } else {
      var M, i, rest := Added(N, n, dirs[0], UFS_DIRECTORY), Fresh(N), dirs[1..];
      assert PlanFrom(N, n, dirs, name) == PlanFrom(M, i, rest, name);
      AddedSize(N, n, dirs[0], UFS_DIRECTORY);
      if |N| >= s.numInodes {
        TooMany(M, i, rest, name, s, size);
      } else {
        RestNames(dirs, name);
        NewIsEmpty(N, n, dirs[0], if rest == [] then name else rest[0]);
        AddedCosts(N, s, n, dirs[0], UFS_DIRECTORY);
        RestPlanned(M, s, i, rest, name, size);
        PlainStep(dirs);
        if rest != [] { assert rest[0] == dirs[1]; }
      }
    }
  }

  lemma NoPlanNoRoom(s: Super, size: nat)
    requires s.numInodes >= 0
    ensures !PlanFits(NoPlan, s, size)
  {
  }

  lemma RestNames(dirs: Path, name: Name)
    requires NoDots(dirs + [name]) && dirs != []
    ensures NoDots(dirs[1..] + [name])
    ensures var next := if dirs[1..] == [] then name else dirs[1..][0];
            next != "." && next != ".."
  {
    assert (dirs + [name])[1] == if dirs[1..] == [] then name else dirs[1..][0];
    assert forall i :: 0 <= i < |dirs| ==> (dirs[1..] + [name])[i] == (dirs + [name])[i + 1];
  }

  lemma PlainStep(dirs: Path)
    requires dirs != []
    ensures Plain(dirs) <==> GoodName(dirs[0]) && Plain(dirs[1..])
  {
    assert forall i :: 1 <= i < |dirs| ==> dirs[i] == dirs[1..][i - 1];
  }

  lemma {:induction false} PlanOfWalk(N: map<int, Node>, n: int, dirs: Path, k: nat)
    requires k <= |dirs| && Walk(N, n, dirs[..k]) >= 0
    ensures PlanDirs(N, n, dirs) == PlanDirs(N, Walk(N, n, dirs[..k]), dirs[k..])
    decreases |dirs|
  {
    hide Lookup, CanName, Added, Fresh;
    if k == 0 {
      assert dirs[..0] == [] && dirs[0..] == dirs;
    } else {
      assert dirs[..k][1..] == dirs[1..][..k - 1] && dirs[k..] == dirs[1..][k - 1..];
      PlanOfWalkStep(N, n, dirs, k);
    }
  }

  lemma PlanOfWalkStep(N: map<int, Node>, n: int, dirs: Path, k: nat)
    requires 0 < k <= |dirs| && Walk(N, n, dirs[..k]) >= 0
    requires dirs[..k][1..] == dirs[1..][..k - 1] && dirs[k..] == dirs[1..][k - 1..]
    ensures PlanDirs(N, n, dirs) == PlanDirs(N, Walk(N, n, dirs[..k]), dirs[k..])
    decreases |dirs|, 0
  {
    hide Lookup, CanName, Added, Fresh;
    assert n >= 0;
    var found := Lookup(N, n, dirs[0]);
    assert Walk(N, n, dirs[..k]) == Walk(N, found, dirs[..k][1..]);
    assert found >= 0;
    PlanOfWalk(N, found, dirs[1..], k - 1);
  }

  /** PUT of a path of which the first `k` names lead to a directory and the next is missing: it succeeds exactly if
      the names are good, the directory can take one more, and there are enough free inodes and data blocks. */
  lemma PutNewPathIff(v: Vol, path: Name, k: nat, content: seq<bv8>, leftover: Page)
    requires Consistent(v) && k <= |Dirs(path)| && Last(path) != ""
    requires var n, rest := Walk(Abs(v), 0, Dirs(path)[..k]), Dirs(path)[k..];
             n in Abs(v) && Abs(v)[n].DirNode? && NoDots(rest + [Last(path)])
             && Lookup(Abs(v), n, if rest == [] then Last(path) else rest[0]) == -ENOTFOUND
    ensures var n, rest := Walk(Abs(v), 0, Dirs(path)[..k]), Dirs(path)[k..];
            Put(v, path, content, leftover).1 == Ok <==>
              && Plain(rest) && GoodName(Last(path)) && |Abs(v)[n].entries| < 3838
              && 0 < |content| <= 122880
              && Clear(v.ibits, v.super.numInodes) >= |rest| + 1
              && Clear(v.dbits, v.super.numData) >= |rest| + EntryBlocks(Abs(v), n) + NumBlocks(|content|)
  {
    hide Owns, GoodObjs, Tree, Abs, Put, Lookup, Dirs, Last, PlanFits, UsedBlocks, PlanDirs, PlanFile, Clear;
    var N := Abs(v);
    SpaceLeft(v);
    var n, rest := Walk(N, 0, Dirs(path)[..k]), Dirs(path)[k..];
    VolumeFits(v);
    SetInodes(v);
    LookupNonNegative(N, n);
    PutSucceedsIff(v, path, content, leftover);
    PlanOfWalk(N, 0, Dirs(path), k);
    assert PlanPut(N, path) == PlanFrom(N, n, rest, Last(path));
    RestPlanned(N, v.super, n, rest, Last(path), |content|);
    if rest != [] { PlainStep(rest); }
  }
}
