/** `unlink` undoes `create`: both bitmaps, the namespace and every object's blocks come back. */
module Inverse {
  import opened Ufs
  import opened Volume
  import opened Storage
  import opened Objects
  import opened Namespace
  import opened Consistency
  import opened CreateSpec
  import opened UnlinkSpec
  import opened Paths

  /** The bitmaps are determined by which inodes are allocated and what their blocks are. */
  lemma SameBits(v: Vol, w: Vol)
    requires Owned(v) && Owned(w) && v.super == w.super
    requires forall n :: Live(v, n) <==> Live(w, n)
    requires forall n :: SlotsAt(v, n) == SlotsAt(w, n)
    ensures v.ibits == w.ibits && v.dbits == w.dbits
  {
    InodeBitsFollow(v, w);
    InodeBitsFollow(w, v);
    DataBitsFollow(v, w);
    DataBitsFollow(w, v);
    hide Owned;
    assert v.ibits == w.ibits;
    assert v.dbits == w.dbits;
  }

  lemma InodeBitsFollow(v: Vol, w: Vol)
    requires Owned(v) && Owned(w) && v.super == w.super
    requires forall n :: Live(v, n) <==> Live(w, n)
    ensures |v.ibits| == |w.ibits|
    ensures forall n :: 0 <= n < |v.ibits| && v.ibits[n] ==> w.ibits[n]
  {
    var own: seq<Loc> :| Owns(v, own);
    forall n | 0 <= n < |v.ibits| && v.ibits[n]
      ensures w.ibits[n]
    {
      assert Live(v, n);
    }
  }

  lemma DataBitsFollow(v: Vol, w: Vol)
    requires Owned(v) && Owned(w) && v.super == w.super
    requires forall n :: SlotsAt(v, n) == SlotsAt(w, n)
    ensures |v.dbits| == |w.dbits|
    ensures forall b :: 0 <= b < |v.dbits| && v.dbits[b] ==> w.dbits[b]
  {
    forall b | 0 <= b < |v.dbits| && v.dbits[b]
      ensures w.dbits[b]
    {
      var n, k := SlotOf(v, b);
      SlotsInRange(w, n);
      assert SlotsAt(w, n)[k] == b;
    }
  }

  lemma SlotOf(v: Vol, b: int) returns (n: int, k: int)
    requires Owned(v) && 0 <= b < |v.dbits| && v.dbits[b]
    ensures 0 <= k < |SlotsAt(v, n)| && SlotsAt(v, n)[k] == b
  {
    var own: seq<Loc> :| Owns(v, own);
    assert Backed(v, own, b);
    n, k := own[b].inum, own[b].slot;
  }

  /** One more entry keeps the pointers to the blocks there were. */
  ghost predicate Longer(inode: Inode, inode': Inode) {
    && inode'.typ == inode.typ && inode'.size == inode.size + 32
    && forall k :: 0 <= k < 30 && k < NumBlocks(inode.size) ==> inode'.direct[k] == inode.direct[k]
  }

  lemma EnteredLonger(v: Vol, n: int)
    requires Sound(v) && IsDir(v, n) && CanEnter(v, n)
    ensures Longer(v.inodes[n], EnteredInode(v, n))
  {
    hide Owns, GoodObjs, GoodDir, Abs, NodeOf, ObjAt;
    DirObj(v, n);
  }

  lemma CreatedInodes(v: Vol, parent: int, typ: int, name: Name)
    requires Consistent(v) && IsType(typ) && IsDir(v, parent) && CreateNew(v, parent, typ, name).ret >= 0
    ensures var out := CreateNew(v, parent, typ, name);
            && 0 <= out.ret < |v.inodes| && !Live(v, out.ret) && |out.vol.inodes| == |v.inodes| && out.ret != parent
            && Longer(v.inodes[parent], out.vol.inodes[parent])
            && forall n :: 0 <= n < |v.inodes| && n != out.ret && n != parent ==> out.vol.inodes[n] == v.inodes[n]
  {
    hide Owns, GoodObjs, Tree, PutBlocks, Reassign, MayHold, GoodDir, Abs, NodeOf, ObjAt, CanEnter, EnteredInode,
        Longer;
    var i := FreeInode(v);
    AddObjectAbs(v, i, typ, parent);
    NewObjectFits(v, i, typ, parent);
    StillDir(v, parent, i, typ);
    var v1 := AddObject(v, i, typ, parent);
    EnteredLonger(v1, parent);
  }

  lemma RemovedInodes(v: Vol, parent: int, e: int)
    requires Consistent(v) && InDirectory(v, parent, e)
    ensures 64 <= v.inodes[parent].size <= 122880
    ensures RemoveObject(v, parent, e).inodes == v.inodes[parent := ShrunkInode(v.inodes[parent])]
  {
    hide Owns, GoodObjs, Tree, PutBlocks, Reassign, MayHold;
    EntryTarget(v, parent, e);
    ShrunkInodeFits(v, parent);
  }

  lemma ShrunkBack(v: Vol, inode: Inode, inode': Inode)
    requires GoodInode(inode) && Longer(inode, inode') && 64 <= inode'.size <= 122880
    ensures GoodInode(ShrunkInode(inode')) && ShrunkInode(inode').size == inode.size
    ensures Slots(v, ShrunkInode(inode')) == Slots(v, inode)
  {
  }

  lemma AbsentName(N: map<int, Node>, n: int, name: Name)
    requires Tree(N) && n in N && N[n].DirNode? && GoodName(name) && Lookup(N, n, name) == -ENOTFOUND
    ensures Find(N[n].entries, name) < 0
  {
    var at: map<int, Loc>, rank: map<int, nat> :| Named(N, at, rank);
    var e := Find(N[n].entries, name);
    assert e >= 0 ==> GoodEntry(N, at, rank, n, e);
  }

  lemma RemovedEntered(N: map<int, Node>, n: int, name: Name, i: int, node: Node)
    requires Tree(N) && n in N && N[n].DirNode? && GoodName(name) && Lookup(N, n, name) == -ENOTFOUND
    requires 0 <= i && i !in N && EmptyNode(node, n)
    ensures var N' := Entered(N, n, name, i, node);
            && N'[n].DirNode? && Find(N'[n].entries, name) == |N[n].entries|
            && N'[n].entries[|N[n].entries|].inum == i && Removable(N', i)
            && Removed(N', n, |N[n].entries|) == N
  {
    hide Tree;
    FindAppended(N[n].entries, DirEnt(name, i), name);
    AbsentName(N, n, name);
    var N' := Entered(N, n, name, i, node);
    assert Without(N'[n].entries, |N[n].entries|) == N[n].entries;
    assert Removed(N', n, |N[n].entries|) == N;
  }

  /** The calls: `unlink` of a name just created succeeds and gives the namespace back. */
  lemma UnlinkUndoesNames(v: Vol, parent: int, typ: int, name: Name)
    requires Consistent(v) && IsType(typ) && Lookup(Abs(v), parent, name) == -ENOTFOUND
    requires Create(v, parent, typ, name).ret >= 0
    ensures IsDir(v, parent) && Create(v, parent, typ, name) == CreateNew(v, parent, typ, name)
    ensures var v1 := Create(v, parent, typ, name).vol;
            && Consistent(v1) && parent in Abs(v) && Abs(v)[parent].DirNode?
            && var e := |Abs(v)[parent].entries|;
            && InDirectory(v1, parent, e)
            && Unlink(v1, parent, name) == Outcome(RemoveObject(v1, parent, e), 0)
            && Consistent(RemoveObject(v1, parent, e)) && RemoveObject(v1, parent, e).super == v.super
            && Abs(RemoveObject(v1, parent, e)) == Abs(v)
  {
    hide Owns, GoodObjs, Tree, CreateNew, RemoveObject, Entered, Removed, Removable, Find, Lookup, Abs;
    CreateRefines(v, parent, typ, name);
    CreateOfAbsent(v, parent, typ, name);
    var v1 := Create(v, parent, typ, name).vol;
    var i := Create(v, parent, typ, name).ret;
    RemovedEntered(Abs(v), parent, name, i, NewNode(typ, parent));
    UnlinkRefines(v1, parent, name);
    StillThere(v, v1, parent, name, i, typ);
    DirObj(v1, parent);
    RemoveObjectRefines(v1, parent, |Abs(v)[parent].entries|);
  }

  lemma StillThere(v: Vol, v1: Vol, parent: int, name: Name, i: int, typ: int)
    requires Sound(v) && Sound(v1) && parent in Abs(v) && Abs(v)[parent].DirNode? && i != parent
    requires Abs(v1) == Entered(Abs(v), parent, name, i, NewNode(typ, parent))
    ensures IsDir(v1, parent) && parent in Abs(v1) && Abs(v1)[parent].DirNode?
    ensures |Abs(v1)[parent].entries| == |Abs(v)[parent].entries| + 1
  {
    AbsAt(v1, parent);
    LiveNode(v1, parent);
  }

  /** Creating an absent name and unlinking it again restores both bitmaps bit for bit, the namespace, the
      parent's size, and which blocks every object has, also when the entry had forced a new block. */
  lemma CreateThenUnlink(v: Vol, parent: int, typ: int, name: Name)
    requires Consistent(v) && IsType(typ) && Lookup(Abs(v), parent, name) == -ENOTFOUND
    requires Create(v, parent, typ, name).ret >= 0
    ensures Consistent(Create(v, parent, typ, name).vol)
    ensures var out := Unlink(Create(v, parent, typ, name).vol, parent, name);
            && out.ret == 0 && Consistent(out.vol)
            && out.vol.ibits == v.ibits && out.vol.dbits == v.dbits
            && Abs(out.vol) == Abs(v)
            && IsDir(v, parent) && parent < |out.vol.inodes| && out.vol.inodes[parent].size == v.inodes[parent].size
            && forall n :: SlotsAt(out.vol, n) == SlotsAt(v, n)
  {
    hide Owns, GoodObjs, Tree, Create, CreateNew, Unlink, RemoveObject, Lookup, Abs, ShrunkInode, Longer;
    UnlinkUndoesNames(v, parent, typ, name);
    CreatedInodes(v, parent, typ, name);
    var out1 := CreateNew(v, parent, typ, name);
    var e := |Abs(v)[parent].entries|;
    RemovedInodes(out1.vol, parent, e);
    var v2 := RemoveObject(out1.vol, parent, e);
    LiveGood(v, parent);
    ShrunkBack(v, v.inodes[parent], out1.vol.inodes[parent]);
    forall n: int
      ensures (Live(v, n) <==> Live(v2, n)) && SlotsAt(v2, n) == SlotsAt(v, n)
    {
      AbsAt(v, n);
      AbsAt(v2, n);
      if Live(v, n) { LiveGood(v, n); }
      SlotsBack(v, v2, parent, out1.ret, n);
    }
    SameBits(v, v2);
  }

  lemma SlotsBack(v: Vol, v2: Vol, parent: int, i: int, n: int)
    requires Owned(v) && Owned(v2) && v.super == v2.super && |v.inodes| == |v2.inodes|
    requires Live(v, n) <==> Live(v2, n)
    requires IsDir(v, parent) && GoodInode(v.inodes[parent]) && GoodInode(v2.inodes[parent])
    requires Slots(v, v2.inodes[parent]) == Slots(v, v.inodes[parent])
    requires !Live(v, i)
    requires forall m :: 0 <= m < |v.inodes| && m != i && m != parent ==> v2.inodes[m] == v.inodes[m]
    ensures SlotsAt(v2, n) == SlotsAt(v, n)
  {
    if Live(v, n) {
      LiveGood(v, n);
      LiveGood(v2, n);
      SlotsSame(v, v2, v2.inodes[n]);
    }
  }

  lemma SlotsSame(v: Vol, w: Vol, inode: Inode)
    requires GoodInode(inode) && v.super == w.super
    ensures Slots(v, inode) == Slots(w, inode)
  {
  }
}
