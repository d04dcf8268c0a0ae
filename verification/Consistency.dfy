/** Consistency of a volume, the namespace that it stands for, and how a change of one object changes that. */
module Consistency {
  import opened Ufs
  import opened Volume
  import opened Storage
  import opened Objects
  import opened Namespace

  ghost predicate GoodObjs(s: map<int, Obj>) {
    forall n :: n in s ==> GoodObj(n, s[n])
  }

  ghost function Nodes(s: map<int, Obj>): map<int, Node>
    requires GoodObjs(s)
  {
    map n | n in s :: NodeOf(n, s[n])
  }

  /** Blocks are owned and every object is well formed. */
  ghost predicate Sound(v: Vol) {
    Owned(v) && GoodObjs(Store(v))
  }

  /** The objects of a volume, by inode number. */
  ghost function Abs(v: Vol): map<int, Node>
    requires Sound(v)
  {
    Nodes(Store(v))
  }

  /** The volume passes every check of a file system checker. */
  ghost predicate Consistent(v: Vol) {
    Sound(v) && Tree(Abs(v))
  }

  lemma AbsAt(v: Vol, n: int)
    requires Sound(v)
    ensures n in Abs(v) <==> Live(v, n)
    ensures Live(v, n) ==> Abs(v)[n] == NodeOf(n, ObjAt(v, n)) && GoodObj(n, ObjAt(v, n))
  {
    StoreMember(v, n);
  }

  lemma LiveNode(v: Vol, n: int)
    requires Sound(v) && Live(v, n)
    ensures n in Abs(v)
    ensures Abs(v)[n].DirNode? <==> v.inodes[n].typ == UFS_DIRECTORY
    ensures Abs(v)[n].FileNode? <==> v.inodes[n].typ == UFS_REGULAR_FILE
    ensures GoodObj(n, ObjAt(v, n)) && ObjAt(v, n).typ == v.inodes[n].typ && ObjAt(v, n).size == v.inodes[n].size
    ensures Abs(v)[n] == NodeOf(n, ObjAt(v, n))
    ensures 0 <= v.inodes[n].size <= 122880
  {
    AbsAt(v, n);
    LiveGood(v, n);
  }

  lemma LiveGood(v: Vol, n: int)
    requires Owned(v) && Live(v, n)
    ensures GoodInode(v.inodes[n])
  {
    var own :| Owns(v, own);
  }

  lemma NodesUpdate(s: map<int, Obj>, n: int, o: Obj)
    requires GoodObjs(s) && GoodObj(n, o)
    ensures GoodObjs(s[n := o]) && Nodes(s[n := o]) == Nodes(s)[n := NodeOf(n, o)]
  {
  }

  lemma NodesRemove(s: map<int, Obj>, n: int)
    requires GoodObjs(s)
    ensures GoodObjs(s - {n}) && Nodes(s - {n}) == Nodes(s) - {n}
  {
  }

  /** Changing one object changes the abstraction at that object only. */
  lemma SetObjAbs(v: Vol, n: int, inode: Inode, blocks: seq<Block>)
    requires Sound(v) && MayHold(v, n, inode) && |blocks| == NumBlocks(inode.size)
    requires GoodObj(n, Obj(inode.typ, inode.size, blocks))
    ensures var v' := SetObj(v, n, inode, blocks);
            Sound(v') && Abs(v') == Abs(v)[n := NodeOf(n, Obj(inode.typ, inode.size, blocks))]
  {
    SetObjStore(v, n, inode, blocks);
    NodesUpdate(Store(v), n, Obj(inode.typ, inode.size, blocks));
  }

  lemma DropObjAbs(v: Vol, n: int)
    requires Sound(v) && Live(v, n)
    ensures var v' := DropObj(v, n);
            Sound(v') && Abs(v') == Abs(v) - {n}
  {
    DropObjStore(v, n);
    NodesRemove(Store(v), n);
  }

  lemma BlockKinds(n: int, o: Obj, k: int)
    requires GoodObj(n, o) && 0 <= k < |o.blocks|
    ensures o.typ == UFS_DIRECTORY ==> o.blocks[k].DirBlock?
    ensures o.typ == UFS_REGULAR_FILE ==> o.blocks[k].ByteBlock?
  {
  }

  /** Block `k` of an object is the data block that pointer `k` of its inode names. */
  lemma ObjBlock(v: Vol, n: int, k: int)
    requires Sound(v) && Live(v, n)
    requires 0 <= k < NumBlocks(v.inodes[n].size)
    ensures 0 <= k < 30
    ensures var b := v.inodes[n].direct[k] - v.super.dataRegionAddr;
            && 0 <= b < v.super.numData
            && |ObjAt(v, n).blocks| == NumBlocks(v.inodes[n].size)
            && v.data[b] == ObjAt(v, n).blocks[k]
    ensures GoodObj(n, ObjAt(v, n)) && (ObjAt(v, n).typ == UFS_DIRECTORY ==> ObjAt(v, n).blocks[k].DirBlock?)
    ensures ObjAt(v, n).typ == UFS_REGULAR_FILE ==> ObjAt(v, n).blocks[k].ByteBlock?
  {
    hide Owns, GoodObjs, SlotsAt, ObjAt, GoodDir, NodeOf, Abs, NumBlocks;
    LiveNode(v, n);
    SlotPointer(v, n, k);
    SlotBlock(v, n, k);
    BlockKinds(n, ObjAt(v, n), k);
  }
}
