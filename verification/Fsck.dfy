/** What consistency means, in the terms of a file system checker. */
module Fsck {
  import opened Ufs
  import opened Volume
  import opened Storage
  import opened Objects
  import opened Namespace
  import opened Consistency

  /** Slot `k` of allocated inode `n` is below its block count and points at data block `b`. */
  ghost predicate Points(v: Vol, n: int, k: int, b: int)
    requires WfVol(v)
  {
    Live(v, n) && GoodInode(v.inodes[n]) && 0 <= k < NumBlocks(v.inodes[n].size)
    && v.inodes[n].direct[k] == v.super.dataRegionAddr + b
  }

  /** The checks on blocks: no inode bit is set past the number of inodes, every allocated inode is well
      formed, every live pointer is in range, and a data bit is set exactly if one live pointer names it. */
  ghost predicate BlocksCheck(v: Vol) {
    && WfVol(v)
    && (forall n :: v.super.numInodes <= n < |v.ibits| ==> !v.ibits[n])
    && (forall n :: Live(v, n) ==> GoodInode(v.inodes[n]))
    && (forall n, k, b :: Points(v, n, k, b) ==> 0 <= b < v.super.numData)
    && (forall b :: 0 <= b < |v.dbits| ==> (v.dbits[b] <==> exists n, k :: Points(v, n, k, b)))
    && (forall n, k, m, l, b :: Points(v, n, k, b) && Points(v, m, l, b) ==> n == m && k == l)
  }

  lemma OwnedPasses(v: Vol)
    requires Owned(v)
    ensures BlocksCheck(v)
  {
    var own: seq<Loc> :| Owns(v, own);
    forall n, k, b | Points(v, n, k, b)
      ensures 0 <= b < v.super.numData && v.dbits[b] && own[b] == Loc(n, k)
    {
      assert PointsAt(v, own, n, k);
    }
    forall b | 0 <= b < |v.dbits| && v.dbits[b]
      ensures exists n, k :: Points(v, n, k, b)
    {
      assert Backed(v, own, b);
      assert Points(v, own[b].inum, own[b].slot, b);
    }
  }

  ghost function OwnerOf(v: Vol, b: int): Loc
    requires WfVol(v)
  {
    if exists n, k :: Points(v, n, k, b) then
      var n, k :| Points(v, n, k, b); Loc(n, k)
    else Loc(0, 0)
  }

  lemma PassingIsOwned(v: Vol)
    requires BlocksCheck(v)
    ensures Owned(v)
  {
    var own := seq(v.super.numData, b requires 0 <= b < v.super.numData => OwnerOf(v, b));
    forall n, k | Live(v, n) && 0 <= k < NumBlocks(v.inodes[n].size)
      ensures PointsAt(v, own, n, k)
    {
      var b := Slots(v, v.inodes[n])[k];
      assert Points(v, n, k, b);
    }
    forall b | 0 <= b < |v.dbits| && v.dbits[b]
      ensures Backed(v, own, b)
    {
      var n, k :| Points(v, n, k, b);
      assert own[b] == OwnerOf(v, b);
    }
    assert Owns(v, own);
  }

  /** The storage half of consistency is exactly the checks on blocks. */
  lemma OwnedIffPasses(v: Vol)
    ensures Owned(v) <==> BlocksCheck(v)
  {
    if Owned(v) { OwnedPasses(v); }
    if BlocksCheck(v) { PassingIsOwned(v); }
  }

  /** Entry `e`, counted after the dots, of allocated directory `d` names inode `n`. */
  ghost predicate Names(v: Vol, d: int, e: int, n: int)
    requires Sound(v)
  {
    d in Abs(v) && Abs(v)[d].DirNode? && 0 <= e < |Abs(v)[d].entries| && Abs(v)[d].entries[e].inum == n
  }

  /** An inode bit is set exactly if the inode is the root or some entry names it, and then only one does. */
  lemma InodeBitsMatchNames(v: Vol)
    requires Consistent(v)
    ensures forall n :: 0 <= n < |v.ibits| ==> (v.ibits[n] <==> n == 0 || exists d, e :: Names(v, d, e, n))
    ensures forall d, e, c, f, n :: Names(v, d, e, n) && Names(v, c, f, n) ==> d == c && e == f
    ensures forall d, e :: !Names(v, d, e, 0)
  {
    OwnedPasses(v);
    var N := Abs(v);
    var at: map<int, Loc>, rank: map<int, nat> :| Named(N, at, rank);
    forall d, e, n | Names(v, d, e, n)
      ensures n != 0 && n in N && n in at && at[n] == Loc(d, e)
    {
      assert GoodEntry(N, at, rank, d, e);
    }
    forall n | 0 <= n < |v.ibits|
      ensures v.ibits[n] <==> n == 0 || exists d, e :: Names(v, d, e, n)
    {
      AbsAt(v, n);
      if v.ibits[n] && n != 0 {
        assert Live(v, n);
        assert NamedAt(N, at, n);
        assert Names(v, at[n].inum, at[n].slot, n);
      }
      AbsAt(v, 0);
    }
  }

  /** Every directory on the disk starts with "." naming itself and ".." naming the directory that holds its
      name, the root's naming the root; and its entries past the size are unused. */
  lemma DirectoriesStartWithDots(v: Vol, n: int)
    requires Consistent(v) && n in Abs(v) && Abs(v)[n].DirNode?
    ensures Live(v, n)
    ensures var o := ObjAt(v, n);
            && GoodDir(n, o)
            && Entries(o.blocks)[0] == DirEnt(".", n)
            && Entries(o.blocks)[1].name == ".."
            && (n == 0 ==> Entries(o.blocks)[1].inum == 0)
            && (n != 0 ==> exists e :: Names(v, Entries(o.blocks)[1].inum, e, n))
            && forall e :: v.inodes[n].size / 32 <= e < |Entries(o.blocks)| ==> Entries(o.blocks)[e].inum == -1
  {
    AbsAt(v, n);
    LiveNode(v, n);
    var N := Abs(v);
    var at: map<int, Loc>, rank: map<int, nat> :| Named(N, at, rank);
    if n != 0 {
      assert NamedAt(N, at, n);
      assert GoodEntry(N, at, rank, at[n].inum, at[n].slot);
      assert Names(v, at[n].inum, at[n].slot, n);
    }
  }
}
