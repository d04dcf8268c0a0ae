/** Every request comes down to calls of the file system, so that what holds after any run of calls holds after any run
    of requests; such as the order in which GET lists a directory. */
module ServiceCalls {
  import opened Ufs
  import opened Volume
  import opened Storage
  import opened Objects
  import opened Namespace
  import opened Consistency
  import opened CreateSpec
  import opened WriteSpec
  import opened UnlinkSpec
  import opened Paths
  import opened PathText
  import opened Runs
  import opened ServiceSpec
  import opened ServiceTheorems
  import opened DeleteSpec
  import opened ServiceRuns
  import opened ListingOrder
  import opened Budget
  import opened Accounting
  import opened PutPlan
  import Mkfs

  lemma {:induction false} RunConcat(v: Vol, a: seq<Op>, b: seq<Op>)
    requires Consistent(v) && ValidOps(a) && ValidOps(b)
    ensures ValidOps(a + b) && Run(v, a + b) == Run(Run(v, a), b)
    decreases |a|
  {
    hide Owned, GoodObjs, Tree, Step;
    if a == [] {
      assert a + b == b;
    } else {
      StepRefines(v, a[0]);
      RunConcat(Step(v, a[0]).vol, a[1..], b);
      assert (a + b)[1..] == a[1..] + b;
    }
  }

  lemma RunOne(v: Vol, op: Op)
    requires Consistent(v) && op.Valid()
    ensures ValidOps([op]) && Run(v, [op]) == Step(v, op).vol
  {
    hide Owned, GoodObjs, Tree, Step;
    StepRefines(v, op);
    assert [op][1..] == [];
  }

  /** The calls that create the directories on the way. */
  ghost function DirCalls(v: Vol, inum: int, dirs: seq<Name>): (ops: seq<Op>)
    requires Consistent(v)
    ensures ValidOps(ops)
    decreases |dirs|
  {
    hide Owned, GoodObjs, Tree, Create, Abs, Lookup, Created;
    if dirs == [] then []
    else
      var found := Lookup(Abs(v), inum, dirs[0]);
      if found == -ENOTFOUND then
        var out := Create(v, inum, UFS_DIRECTORY, dirs[0]);
        CreateRefines(v, inum, UFS_DIRECTORY, dirs[0]);
        [Make(inum, UFS_DIRECTORY, dirs[0])] + if out.ret < 0 then [] else DirCalls(out.vol, out.ret, dirs[1..])
      else if found < 0 then []
      else DirCalls(v, found, dirs[1..])
  }

  lemma {:induction false} DirCallsRun(v: Vol, inum: int, dirs: seq<Name>)
    requires Consistent(v)
    ensures Run(v, DirCalls(v, inum, dirs)) == PutDirs(v, inum, dirs).0
    decreases |dirs|
  {
    hide Owned, GoodObjs, Tree, Create, Abs, Run, Lookup;
    NoCalls(v);
    if dirs != [] {
      var found := Lookup(Abs(v), inum, dirs[0]);
      if found == -ENOTFOUND {
        var op := Make(inum, UFS_DIRECTORY, dirs[0]);
        var out := Create(v, inum, UFS_DIRECTORY, dirs[0]);
        CreateRefines(v, inum, UFS_DIRECTORY, dirs[0]);
        RunOne(v, op);
        assert Step(v, op) == out;
        if out.ret >= 0 {
          DirCallsRun(out.vol, out.ret, dirs[1..]);
          RunConcat(v, [op], DirCalls(out.vol, out.ret, dirs[1..]));
        } else {
          assert [op] + [] == [op];
        }
      } else if found >= 0 {
        DirCallsRun(v, found, dirs[1..]);
      }
    }
  }

  lemma NoCalls(v: Vol)
    requires Consistent(v)
    ensures Run(v, []) == v
  {
  }

  /** The calls that create the file, if it is missing, and write it. */
  ghost function FileCalls(v: Vol, d: int, name: Name, content: seq<bv8>, leftover: Page): (ops: seq<Op>)
    requires Consistent(v)
    ensures ValidOps(ops)
  {
    hide Owned, GoodObjs, Tree, Create, Abs, Lookup;
    var found := Lookup(Abs(v), d, name);
    if found == -ENOTFOUND then
      var out := Create(v, d, UFS_REGULAR_FILE, name);
      [Make(d, UFS_REGULAR_FILE, name)] + if out.ret < 0 then [] else [Overwrite(out.ret, content, leftover)]
    else if found < 0 then []
    else [Overwrite(found, content, leftover)]
  }

  lemma FileCallsRun(v: Vol, d: int, name: Name, content: seq<bv8>, leftover: Page)
    requires Consistent(v)
    ensures Run(v, FileCalls(v, d, name, content, leftover)) == PutFile(v, d, name, content, leftover).0
  {
    hide Owned, GoodObjs, Tree, Create, Write, Abs, Run, Lookup;
    NoCalls(v);
    var found := Lookup(Abs(v), d, name);
    if found == -ENOTFOUND {
      var op := Make(d, UFS_REGULAR_FILE, name);
      var out := Create(v, d, UFS_REGULAR_FILE, name);
      CreateRefines(v, d, UFS_REGULAR_FILE, name);
      RunOne(v, op);
      if out.ret >= 0 {
        var write := Overwrite(out.ret, content, leftover);
        RunOne(out.vol, write);
        RunConcat(v, [op], [write]);
      } else {
        assert [op] + [] == [op];
      }
    } else if found >= 0 {
      RunOne(v, Overwrite(found, content, leftover));
    }
  }

  ghost function PutCalls(v: Vol, path: Name, content: seq<bv8>, leftover: Page): (ops: seq<Op>)
    requires Consistent(v)
    ensures ValidOps(ops)
  {
    hide Create, Owned, GoodObjs, Tree;
    RootDir(v);
    PutDirsGrows(v, 0, Dirs(path));
    var (v1, d) := PutDirs(v, 0, Dirs(path));
    DirCalls(v, 0, Dirs(path))
    + if d < 0 || Last(path) == "" then [] else FileCalls(v1, d, Last(path), content, leftover)
  }

  lemma PutCallsRun(v: Vol, path: Name, content: seq<bv8>, leftover: Page)
    requires Consistent(v)
    ensures Run(v, PutCalls(v, path, content, leftover)) == Put(v, path, content, leftover).0
  {
    hide Create, Owned, GoodObjs, Tree, Abs, Run, DirCalls, FileCalls, PutDirs, PutFile, Dirs, Last;
    RootDir(v);
    PutDirsGrows(v, 0, Dirs(path));
    DirCallsRun(v, 0, Dirs(path));
    var (v1, d) := PutDirs(v, 0, Dirs(path));
    var dirs := DirCalls(v, 0, Dirs(path));
    if d < 0 || Last(path) == "" {
      assert dirs + [] == dirs;
    } else {
      FileCallsRun(v1, d, Last(path), content, leftover);
      RunConcat(v, dirs, FileCalls(v1, d, Last(path), content, leftover));
    }
  }

  ghost function DeleteCalls(v: Vol, path: Name): (ops: seq<Op>)
    requires Consistent(v)
    ensures ValidOps(ops)
  {
    hide Owned, GoodObjs, Tree;
    var names := Trimmed(path);
    var d := Walk(Abs(v), 0, Dirs(names));
    if d < 0 || Last(names) == "" || Lookup(Abs(v), d, Last(names)) < 0 then [] else [Remove(d, Last(names))]
  }

  lemma DeleteCallsRun(v: Vol, path: Name)
    requires Consistent(v)
    ensures Run(v, DeleteCalls(v, path)) == Delete(v, path).0
  {
    hide Unlink, Owned, GoodObjs, Tree, Abs, Run, Dirs, Last, Walk, Lookup, Trimmed;
    NoCalls(v);
    var names := Trimmed(path);
    RunOne(v, Remove(Walk(Abs(v), 0, Dirs(names)), Last(names)));
  }

  ghost function RequestCalls(v: Vol, r: Request): (ops: seq<Op>)
    requires Consistent(v)
    ensures ValidOps(ops)
  {
    match r
    case GetRequest(_) => []
    case PutRequest(path, content, leftover) => PutCalls(v, path, content, leftover)
    case DeleteRequest(path) => DeleteCalls(v, path)
  }

  lemma RequestCallsRun(v: Vol, r: Request)
    requires Consistent(v)
    ensures Run(v, RequestCalls(v, r)) == Serve(v, r).0
  {
    hide Owned, GoodObjs, Tree, Abs, Run, Put, Delete, PutCalls, DeleteCalls, Get;
    match r
    case GetRequest(_) => NoCalls(v);
    case PutRequest(path, content, leftover) => PutCallsRun(v, path, content, leftover);
    case DeleteRequest(path) => DeleteCallsRun(v, path);
  }

  /** All calls that a run of requests makes. */
  ghost function AllCalls(v: Vol, rs: seq<Request>): (ops: seq<Op>)
    requires Consistent(v)
    ensures ValidOps(ops)
    decreases |rs|
  {
    hide Owned, GoodObjs, Tree, Serve, RequestCalls;
    if rs == [] then []
    else
      ServeConsistent(v, rs[0]);
      RequestCalls(v, rs[0]) + AllCalls(Serve(v, rs[0]).0, rs[1..])
  }

  /** The volume after a run of requests is the volume after the calls that they make. */
  lemma {:induction false} RequestsAreCalls(v: Vol, rs: seq<Request>)
    requires Consistent(v)
    ensures ServeAll(v, rs) == Run(v, AllCalls(v, rs))
    decreases |rs|
  {
    hide Owned, GoodObjs, Tree, Serve, RequestCalls, Run;
    if rs == [] {
      NoCalls(v);
    } else {
      ServeConsistent(v, rs[0]);
      var w := Serve(v, rs[0]).0;
      RequestCallsRun(v, rs[0]);
      RequestsAreCalls(w, rs[1..]);
      RunConcat(v, RequestCalls(v, rs[0]), AllCalls(w, rs[1..]));
    }
  }

  /** After any requests to a fresh volume, GET of a directory lists its names in the order in which the calls of those
      requests last created them. */
  lemma ListedAsCreated(v: Vol, rs: seq<Request>, path: Name)
    requires Mkfs.OnlyRoot(v)
    ensures Consistent(v)
    ensures var N, born := Abs(ServeAll(v, rs)), Births(v, AllCalls(v, rs), map[0 := 0], 1);
            Get(N, path).Text? ==>
              var n := Walk(N, 0, Components(path));
              && n in N && N[n].DirNode? && EntriesInOrder(N[n].entries, born)
              && (forall i :: 0 <= i < |N[n].entries| ==> N[n].entries[i].inum in N)
              && Get(N, path) == Text(Listing(N, N[n].entries))
  {
    hide Owned, GoodObjs, Tree, Abs, Run, AllCalls, ServeAll, Births, Components, Walk, Mkfs.OnlyRoot, EntriesInOrder;
    Mkfs.OnlyRootConsistent(v);
    RequestsAreCalls(v, rs);
    CreatedInOrder(v, AllCalls(v, rs));
    var N := Abs(ServeAll(v, rs));
    var n := Walk(N, 0, Components(path));
    if Get(N, path).Text? { EntriesInside(N, n); }
  }

  // An input

  /** What a successful PUT of a name that is new in the root comes to. */
  lemma PutInRoot(v: Vol, name: Name, content: seq<bv8>, leftover: Page)
    requires Consistent(v) && Put(v, name, content, leftover).1 == Ok
    requires GoodName(name) && '/' !in name && Lookup(Abs(v), 0, name) == -ENOTFOUND
    ensures 0 in Abs(v) && Abs(v)[0].DirNode?
    ensures var w := Put(v, name, content, leftover).0;
            && Consistent(w) && w.super == v.super
            && Abs(w) == Added(Abs(v), 0, name, UFS_REGULAR_FILE)[Fresh(Abs(v)) := FileNode(content)]
  {
    hide Owned, GoodObjs, Tree, Abs, Put, Lookup, Added, Fresh, PlanFits, PlanFile;
    PutSucceedsIff(v, name, content, leftover);
    PutEffect(v, name, content, leftover);
    LookupDirectory(Abs(v), 0, name);
    CutNone(name);
    assert PlanPut(Abs(v), name) == PlanFile(Abs(v), 0, name);
    PlanOfNew(Abs(v), name, v.super, |content|);
  }

  lemma PlanOfNew(N: map<int, Node>, name: Name, s: Super, size: nat)
    requires s.numInodes >= 0 && Lookup(N, 0, name) == -ENOTFOUND && PlanFits(PlanFile(N, 0, name), s, size)
    ensures 0 in N && N[0].DirNode? && PlanFile(N, 0, name) == Plan(Added(N, 0, name, UFS_REGULAR_FILE), Fresh(N))
  {
    hide UsedBlocks, Added, Fresh;
  }

  lemma FreshUses(v: Vol)
    requires Mkfs.OnlyRoot(v)
    ensures Consistent(v) && Abs(v) == map[0 := DirNode(0, [])]
    ensures UsedBlocks(Abs(v), v.super.numInodes) == 1
  {
    hide GoodObjs, Tree, Abs, UsedBlocks, Count;
    Mkfs.OnlyRootConsistent(v);
    DataBitsConserved(v);
    CountIsSize(v.dbits);
    assert SetBits(v.dbits) == {0};
  }

  /** With fewer than 30 entries in the root and room for them, a short file can be put there. */
  lemma PutInRootSucceeds(v: Vol, name: Name, content: seq<bv8>, leftover: Page)
    requires Consistent(v) && GoodName(name) && '/' !in name && 0 < |content| <= 4096
    requires 0 in Abs(v) && Abs(v)[0].DirNode? && |Abs(v)[0].entries| < 30 && Lookup(Abs(v), 0, name) == -ENOTFOUND
    requires |Abs(v)| < v.super.numInodes && UsedBlocks(Abs(v), v.super.numInodes) < v.super.numData
    ensures Put(v, name, content, leftover).1 == Ok
  {
    hide Owns, GoodObjs, Tree, Abs, Put, Lookup, UsedBlocks;
    CutNone(name);
    assert Walk(Abs(v), 0, Dirs(name)[..0]) == 0;
    SpaceLeft(v);
    PutNewPathIff(v, name, 0, content, leftover);
  }

  lemma PutInRootUses(v: Vol, name: Name, content: seq<bv8>, leftover: Page)
    requires Consistent(v) && Put(v, name, content, leftover).1 == Ok && 0 < |content| <= 4096
    requires GoodName(name) && '/' !in name && Lookup(Abs(v), 0, name) == -ENOTFOUND
    requires 0 in Abs(v) && Abs(v)[0].DirNode? && |Abs(v)[0].entries| < 30
    requires |Abs(v)| < v.super.numInodes
    ensures var w := Put(v, name, content, leftover).0;
            && Consistent(w) && w.super == v.super
            && |Abs(w)| == |Abs(v)| + 1
            && UsedBlocks(Abs(w), w.super.numInodes) == UsedBlocks(Abs(v), v.super.numInodes) + 1
  {
    hide Owned, GoodObjs, Tree, Abs, Put, Lookup, UsedBlocks, Added, Fresh;
    PutInRoot(v, name, content, leftover);
    SetInodes(v);
    var N := Abs(v);
    var M, i := Added(N, 0, name, UFS_REGULAR_FILE), Fresh(N);
    AddedCosts(N, v.super, 0, name, UFS_REGULAR_FILE);
    AddedMember(N, 0, name, UFS_REGULAR_FILE);
    assert M[i := FileNode(content)].Keys == M.Keys;
    UsedBlocksChange(M, i, FileNode(content), v.super.numInodes);
  }

  /** GET does not sort: on a fresh volume, after PUT of "b" and then of "a", the root is listed as "b" and "a". */
  lemma NotSorted(v: Vol, content: seq<bv8>, leftover: Page)
    requires Mkfs.OnlyRoot(v) && 0 < |content| <= 4096
    ensures Consistent(v)
    ensures var rs := [PutRequest("b", content, leftover), PutRequest("a", content, leftover)];
            Get(Abs(ServeAll(v, rs)), "") == Text("b\na\n")
  {
    hide Owns, GoodObjs, Tree, Abs, Put, UsedBlocks, Get;
    FreshUses(v);
    var N := Abs(v);
    PutInRootSucceeds(v, "b", content, leftover);
    PutInRoot(v, "b", content, leftover);
    PutInRootUses(v, "b", content, leftover);
    var w := Put(v, "b", content, leftover).0;
    FirstEntry(N, content);
    PutInRootSucceeds(w, "a", content, leftover);
    PutInRoot(w, "a", content, leftover);
    SecondEntry(N, content);
    ServedTwo(v, "b", "a", content, leftover);
    ListedSo(Abs(Put(w, "a", content, leftover).0));
  }

  lemma ServedTwo(v: Vol, first: Name, second: Name, content: seq<bv8>, leftover: Page)
    requires Consistent(v)
    ensures Consistent(Put(v, first, content, leftover).0)
    ensures ServeAll(v, [PutRequest(first, content, leftover), PutRequest(second, content, leftover)])
            == Put(Put(v, first, content, leftover).0, second, content, leftover).0
  {
    hide Owned, GoodObjs, Tree, Abs, Put, Get, Delete;
    var rs := [PutRequest(first, content, leftover), PutRequest(second, content, leftover)];
    ServeConsistent(v, rs[0]);
    var w := Put(v, first, content, leftover).0;
    assert Serve(v, rs[0]).0 == w;
    ServeConsistent(w, rs[1]);
    assert rs[1..] == [rs[1]] && [rs[1]][1..] == [];
    var u := Serve(w, rs[1]).0;
    assert ServeAll(u, []) == u;
    assert ServeAll(w, [rs[1]]) == ServeAll(u, [rs[1]][1..]);
    assert ServeAll(v, rs) == ServeAll(w, rs[1..]);
  }

  lemma FirstEntry(N: map<int, Node>, content: seq<bv8>)
    requires N == map[0 := DirNode(0, [])]
    ensures var M := Added(N, 0, "b", UFS_REGULAR_FILE)[Fresh(N) := FileNode(content)];
            && M == map[0 := DirNode(0, [DirEnt("b", Fresh(N))]), Fresh(N) := FileNode(content)]
            && Lookup(M, 0, "a") == -ENOTFOUND
  {
    var i := Fresh(N);
    assert i != 0;
    assert [] + [DirEnt("b", i)] == [DirEnt("b", i)];
    assert Added(N, 0, "b", UFS_REGULAR_FILE)[0] == DirNode(0, [DirEnt("b", i)]);
  }

  lemma SecondEntry(N: map<int, Node>, content: seq<bv8>)
    requires N == map[0 := DirNode(0, [])]
    ensures var M := Added(N, 0, "b", UFS_REGULAR_FILE)[Fresh(N) := FileNode(content)];
            && 0 in M && M[0].DirNode?
            && var K := Added(M, 0, "a", UFS_REGULAR_FILE)[Fresh(M) := FileNode(content)];
            && 0 in K && K[0] == DirNode(0, [DirEnt("b", Fresh(N)), DirEnt("a", Fresh(M))])
            && Fresh(N) in K && K[Fresh(N)].FileNode? && Fresh(M) in K && K[Fresh(M)].FileNode?
  {
    FirstEntry(N, content);
  }

  lemma ListedSo(N: map<int, Node>)
    requires Tree(N) && 0 in N && N[0].DirNode? && |N[0].entries| == 2
    requires N[0].entries[0].name == "b" && N[0].entries[1].name == "a"
    requires forall i :: 0 <= i < 2 ==> N[0].entries[i].inum in N && N[N[0].entries[i].inum].FileNode?
    ensures Get(N, "") == Text("b\na\n")
  {
    hide Tree;
    var es := N[0].entries;
    CutNone("");
    assert Walk(N, 0, []) == 0;
    assert es[..1][..0] == [] && es[..1][0] == es[0];
    assert Listing(N, []) == "";
    assert Listing(N, es[..1]) == "b\n";
    assert Listing(N, es) == "b\n" + "a" + "\n";
  }
}
