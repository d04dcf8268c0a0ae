/** What a creation needs, said of the namespace: which calls succeed is decided by names and by counts of objects and
    blocks. */
module Budget {
  import opened Ufs
  import opened Bits
  import opened Volume
  import opened Storage
  import opened Objects
  import opened Namespace
  import opened Consistency
  import opened CreateSpec
  import opened WriteSpec
  import opened Growth
  import opened Accounting

  /** The objects find room on a volume of that size. */
  ghost predicate Fits(N: map<int, Node>, s: Super)
    requires s.numInodes >= 0
  {
    |N| <= s.numInodes && UsedBlocks(N, s.numInodes) <= s.numData
  }

  /** A directory with 3838 entries and two dots has filled 30 blocks. */
  ghost predicate CanName(N: map<int, Node>, n: int, name: Name)
    requires n in N && N[n].DirNode?
  {
    GoodName(name) && |N[n].entries| < 3838
  }

  ghost function From(N: map<int, Node>, n: int): set<int> {
    set k | k in N.Keys && k >= n
  }

  /** The lowest number from `n` on that no object has. */
  ghost function FreshFrom(N: map<int, Node>, n: nat): (f: nat)
    ensures f >= n && f !in N
    ensures forall m :: n <= m < f ==> m in N
    decreases From(N, n)
  {
    if n in N then
      assert From(N, n + 1) == From(N, n) - {n};
      FreshFrom(N, n + 1)
    else n
  }

  ghost function Fresh(N: map<int, Node>): (f: nat)
    ensures f !in N
  {
    FreshFrom(N, 0)
  }

  /** An empty object under that name, with the lowest number that is free. */
  ghost function Added(N: map<int, Node>, n: int, name: Name, typ: int): map<int, Node>
    requires n in N && N[n].DirNode?
  {
    Entered(N, n, name, Fresh(N), NewNode(typ, n))
  }

  lemma VolumeFits(v: Vol)
    requires Sound(v)
    ensures v.super.numInodes >= 0 && Fits(Abs(v), v.super)
  {
    hide Clear, UsedBlocks, Abs;
    SpaceLeft(v);
  }

  lemma FreshIs(N: map<int, Node>, i: nat)
    requires i !in N && forall m :: 0 <= m < i ==> m in N
    ensures Fresh(N) == i
  {
    assert Fresh(N) > i ==> i in N;
  }

  /** The lowest free inode is the lowest number that no object has. */
  lemma FreshIsFree(v: Vol)
    requires Sound(v)
    ensures FreeInode(v) < v.super.numInodes ==> Fresh(Abs(v)) == FreeInode(v)
    ensures FreeInode(v) < v.super.numInodes <==> |Abs(v)| < v.super.numInodes
  {
    hide Owns, GoodObjs, Abs, Clear;
    SpaceLeft(v);
    FirstClearFits(v.ibits, v.super.numInodes);
    var i := FreeInode(v);
    if i < v.super.numInodes {
      AbsAt(v, i);
      forall m | 0 <= m < i
        ensures m in Abs(v)
      {
        AbsAt(v, m);
      }
      FreshIs(Abs(v), i);
    }
  }

  lemma NewNodeBlocks(typ: int, parent: int)
    requires IsType(typ)
    ensures BlocksOf(NewNode(typ, parent)) == OwnBlocks(typ)
  {
  }

  lemma DirectorySize(v: Vol, d: int)
    requires Sound(v) && IsDir(v, d)
    ensures d in Abs(v) && Abs(v)[d].DirNode? && 0 <= d < v.super.numInodes
    ensures Full(v, d) <==> (|Abs(v)[d].entries| + 2) % 128 == 0
    ensures |Abs(v)[d].entries| <= 3838
    ensures !Full(v, d) || NumBlocks(v.inodes[d].size) < DIRECT_PTRS <==> |Abs(v)[d].entries| < 3838
  {
    hide Owns, GoodObjs, GoodDir, Abs, NodeOf, ObjAt;
    DirObj(v, d);
    SizeOfEntries(v.inodes[d].size, |Abs(v)[d].entries|);
  }

  lemma SizeOfEntries(size: int, count: nat)
    requires size == 32 * (count + 2) && size <= 122880
    ensures size % 4096 == 0 <==> (count + 2) % 128 == 0
    ensures size % 4096 != 0 || NumBlocks(size) < 30 <==> count < 3838
  {
  }

  /** `create` of an absent name succeeds exactly if the name can be entered and the volume has room for what comes
      of it, and then that is what comes of it. */
  lemma CreateBudget(v: Vol, d: int, typ: int, name: Name)
    requires Consistent(v) && IsType(typ) && Lookup(Abs(v), d, name) == -ENOTFOUND
    ensures v.super.numInodes >= 0 && d in Abs(v) && Abs(v)[d].DirNode?
    ensures var out := Create(v, d, typ, name);
            && (out.ret >= 0 <==> CanName(Abs(v), d, name) && Fits(Added(Abs(v), d, name, typ), v.super))
            && Consistent(out.vol) && out.vol.super == v.super
            && (out.ret >= 0 ==> out.ret == Fresh(Abs(v)) && Abs(out.vol) == Added(Abs(v), d, name, typ))
  {
    hide Owned, GoodObjs, Tree, Abs, Create, Lookup, Clear, UsedBlocks, Entered, FreshFrom, Full, GoodName, BlocksOf;
    CreateSucceedsIff(v, d, typ, name);
    CreateRefines(v, d, typ, name);
    DirectorySize(v, d);
    SpaceLeft(v);
    FreshIsFree(v);
    NewNodeBlocks(typ, d);
    AddedSize(Abs(v), d, name, typ);
    if FreeInode(v) < v.super.numInodes {
      EnteredBlocks(Abs(v), d, name, Fresh(Abs(v)), NewNode(typ, d), v.super.numInodes);
    }
  }

  /** Which answer `create` gives: said of the name, the namespace and the room. */
  lemma CreateAnswers(v: Vol, d: int, typ: int, name: Name)
    requires Consistent(v) && IsType(typ)
    ensures v.super.numInodes >= 0
    ensures var N, m, ret := Abs(v), Lookup(Abs(v), d, name), Create(v, d, typ, name).ret;
            if name in ["", ".", ".."] || |name| > 27 then ret == -EINVALIDNAME
            else if d !in N || !N[d].DirNode? then ret == -EINVALIDINODE
            else if m in N then ret == if (typ == UFS_DIRECTORY) == N[m].DirNode? then m else -EINVALIDTYPE
            else ret == if |N[d].entries| < 3838 && Fits(Added(N, d, name, typ), v.super) then Fresh(N)
                        else -ENOTENOUGHSPACE
  {
    hide Owned, GoodObjs, Tree, Abs, Lookup, CreateNew, Fits, Added, FreshFrom;
    var m := Lookup(Abs(v), d, name);
    VolumeFits(v);
    LookupLive(v, d, name);
    LookupIn(Abs(v), d, name);
    if GoodName(name) && d in Abs(v) && Abs(v)[d].DirNode? {
      if m == -ENOTFOUND {
        CreateBudget(v, d, typ, name);
        AbsentAnswer(v, d, typ, name);
      } else {
        LiveNode(v, m);
      }
    }
  }

  lemma AbsentAnswer(v: Vol, d: int, typ: int, name: Name)
    requires Consistent(v) && IsType(typ) && GoodName(name) && Lookup(Abs(v), d, name) == -ENOTFOUND
    ensures Create(v, d, typ, name).ret < 0 ==> Create(v, d, typ, name).ret == -ENOTENOUGHSPACE
  {
    hide Owned, GoodObjs, Tree, Abs, Lookup, CreateNew;
    LookupLive(v, d, name);
    CreateOfAbsent(v, d, typ, name);
    CreateNewRefines(v, d, typ, name);
  }

  lemma AddedSize(N: map<int, Node>, n: int, name: Name, typ: int)
    requires n in N && N[n].DirNode?
    ensures |Added(N, n, name, typ)| == |N| + 1
  {
    assert Added(N, n, name, typ).Keys == N.Keys + {Fresh(N)};
  }

  /** What grows needs more room. */
  lemma LessFits(N: map<int, Node>, M: map<int, Node>, s: Super)
    requires s.numInodes >= 0 && Extends(N, M) && Fits(M, s)
    ensures Fits(N, s)
  {
    hide UsedBlocks;
    KeysLess(N, M);
    UsedBlocksLess(N, M, s.numInodes);
  }

  lemma KeysLess(N: map<int, Node>, M: map<int, Node>)
    requires Extends(N, M)
    ensures |N| <= |M|
  {
    forall n | n in N.Keys
      ensures n in M.Keys
    {
      assert n in N;
    }
    SubsetSize(N.Keys, M.Keys);
  }

  lemma SubsetSize(a: set<int>, b: set<int>)
    requires a <= b
    ensures |a| <= |b|
  {
    assert b == a + (b - a);
  }

  lemma {:induction false} UsedBlocksLess(N: map<int, Node>, M: map<int, Node>, limit: nat)
    requires Extends(N, M)
    ensures UsedBlocks(N, limit) <= UsedBlocks(M, limit)
  {
    if limit > 0 {
      UsedBlocksLess(N, M, limit - 1);
      if limit - 1 in N { KeptBlocks(N[limit - 1], M[limit - 1]); }
    }
  }

  lemma KeptBlocks(a: Node, b: Node)
    requires Kept(a, b)
    ensures BlocksOf(a) <= BlocksOf(b)
  {
    if a.DirNode? { assert |a.entries| <= |b.entries|; }
  }

  lemma AddedExtends(N: map<int, Node>, n: int, name: Name, typ: int)
    requires n in N && N[n].DirNode?
    ensures Extends(N, Added(N, n, name, typ))
  {
    EnteredExtends(N, n, name, Fresh(N), NewNode(typ, n));
  }

  /** `write` of an existing file succeeds exactly for one to 30 blocks of bytes, and if the volume has room for what
      comes of it. */
  lemma WriteBudget(v: Vol, m: int, buf: seq<bv8>, leftover: Page)
    requires Consistent(v) && m in Abs(v)
    ensures v.super.numInodes >= 0
    ensures var out := Write(v, m, buf, leftover);
            && (out.ret >= 0 <==> && 0 < |buf| <= 122880 && Abs(v)[m].FileNode?
                                  && UsedBlocks(Abs(v), v.super.numInodes) - BlocksOf(Abs(v)[m])
                                      + NumBlocks(|buf|) <= v.super.numData)
            && Consistent(out.vol)
            && (out.ret >= 0 ==> Abs(out.vol) == Abs(v)[m := FileNode(buf)])
  {
    hide Owned, GoodObjs, Tree, Abs, Write, Clear, UsedBlocks, Lacking;
    WriteSucceedsIff(v, m, buf, leftover);
    WriteRefines(v, m, buf, leftover);
    SpaceLeft(v);
    AbsAt(v, m);
    LiveNode(v, m);
    if Abs(v)[m].FileNode? { LackingIs(v, m, |buf|); }
  }

  /** Which answer `write` gives. */
  lemma WriteAnswers(v: Vol, m: int, buf: seq<bv8>, leftover: Page)
    requires Consistent(v)
    ensures v.super.numInodes >= 0
    ensures var N, ret := Abs(v), Write(v, m, buf, leftover).ret;
            if buf == [] then ret == -EINVALIDSIZE
            else if |buf| > 122880 then ret == -ENOTENOUGHSPACE
            else if m !in N then ret == -EINVALIDINODE
            else if N[m].DirNode? then ret == -EWRITETODIR
            else ret == if UsedBlocks(N, v.super.numInodes) - BlocksOf(N[m]) + NumBlocks(|buf|) <= v.super.numData
                        then |buf| else -ENOTENOUGHSPACE
  {
    hide Owned, GoodObjs, Tree, Abs, UsedBlocks, BlocksOf, CanWrite;
    VolumeFits(v);
    WriteRefines(v, m, buf, leftover);
    AbsAt(v, m);
    if m in Abs(v) {
      LiveNode(v, m);
      WriteBudget(v, m, buf, leftover);
    }
  }

  lemma LackingIs(v: Vol, m: int, size: nat)
    requires Sound(v) && IsFile(v, m)
    ensures m in Abs(v) && var now, need := BlocksOf(Abs(v)[m]), NumBlocks(size);
                           Lacking(v, m, size) == if now < need then need - now else 0
  {
    hide GoodObjs, Abs, BlocksOf;
    LiveNode(v, m);
    NodeBlocks(m, ObjAt(v, m));
  }
}
