/** `unlink` as a function on consistent volumes. */
module UnlinkSpec {
  import opened Ufs
  import opened Volume
  import opened Storage
  import opened Objects
  import opened Namespace
  import opened Consistency
  import opened CreateSpec

  /** The inode of a directory that loses one entry, and its last block if that held only this entry. */
  ghost function ShrunkInode(inode: Inode): Inode
    requires 64 <= inode.size <= 122880
  {
    var now, left := NumBlocks(inode.size), NumBlocks(inode.size - 32);
    Inode(inode.typ, inode.size - 32, if left != now then inode.direct[left := NO_BLOCK] else inode.direct)
  }

  lemma ShrunkSlots(v: Vol, inode: Inode)
    requires GoodInode(inode) && 64 <= inode.size
    ensures GoodInode(ShrunkInode(inode))
    ensures Slots(v, ShrunkInode(inode)) == Slots(v, inode)[..NumBlocks(inode.size - 32)]
  {
  }

  lemma ShrunkInodeFits(v: Vol, n: int)
    requires Sound(v) && IsDir(v, n)
    ensures 64 <= v.inodes[n].size <= 122880
    ensures MayHold(v, n, ShrunkInode(v.inodes[n]))
  {
    hide Owns, GoodObjs, GoodDir, MayHold;
    DirObj(v, n);
    ShrunkSlots(v, v.inodes[n]);
    MayHoldFewer(v, n, ShrunkInode(v.inodes[n]), NumBlocks(v.inodes[n].size - 32));
  }

  /** Directory `n` loses entry `e`, counted after the dots. */
  ghost function LoseEntry(v: Vol, n: int, e: nat): (v': Vol)
    requires Sound(v) && IsDir(v, n) && e < v.inodes[n].size / 32 - 2
    ensures WfVol(v') && v'.super == v.super
  {
    hide Owns, GoodObjs, GoodDir, MayHold, Entries, RemoveEntry, ShrunkInode;
    DirObj(v, n);
    ShrunkInodeFits(v, n);
    LoseEntryShape(n, ObjAt(v, n), e + 2, v.inodes[n]);
    SetObj(v, n, ShrunkInode(v.inodes[n]), RemoveEntry(n, ObjAt(v, n), e + 2).blocks)
  }

  lemma LoseEntryShape(n: int, o: Obj, e: int, inode: Inode)
    requires GoodDir(n, o) && 2 <= e < o.size / 32 && 64 <= inode.size <= 122880 && o.size == inode.size
             && o.typ == inode.typ
    ensures RemoveEntry(n, o, e) == Obj(ShrunkInode(inode).typ, ShrunkInode(inode).size, RemoveEntry(n, o, e).blocks)
    ensures |RemoveEntry(n, o, e).blocks| == NumBlocks(ShrunkInode(inode).size)
    ensures ShrunkInode(inode).typ == inode.typ
  {
  }

  lemma NodeEntries(n: int, o: Obj)
    requires GoodDir(n, o) && o.typ == UFS_DIRECTORY
    ensures NodeOf(n, o).DirNode? && |NodeOf(n, o).entries| == o.size / 32 - 2
  {
  }

  lemma LoseEntryAbs(v: Vol, n: int, e: nat)
    requires Sound(v) && IsDir(v, n) && e < v.inodes[n].size / 32 - 2
    ensures n in Abs(v) && Abs(v)[n].DirNode? && e < |Abs(v)[n].entries|
    ensures var v' := LoseEntry(v, n, e);
            && Sound(v') && v'.super == v.super
            && Abs(v') == Abs(v)[n := Abs(v)[n].(entries := Without(Abs(v)[n].entries, e))]
  {
    hide Owns, GoodObjs, GoodDir, MayHold, Entries, RemoveEntry, ShrunkInode, NodeOf;
    DirObj(v, n);
    ShrunkInodeFits(v, n);
    RemoveEntryGood(n, ObjAt(v, n), e + 2);
    LoseEntryShape(n, ObjAt(v, n), e + 2, v.inodes[n]);
    NodeEntries(n, ObjAt(v, n));
    var inode, blocks := ShrunkInode(v.inodes[n]), RemoveEntry(n, ObjAt(v, n), e + 2).blocks;
    assert GoodObj(n, Obj(inode.typ, inode.size, blocks));
    SetObjAbs(v, n, inode, blocks);
  }

  ghost predicate InDirectory(v: Vol, n: int, e: int)
    requires Sound(v)
  {
    IsDir(v, n) && 0 <= e < v.inodes[n].size / 32 - 2
  }

  lemma EntryTarget(v: Vol, n: int, e: int)
    requires Consistent(v) && InDirectory(v, n, e)
    ensures n in Abs(v) && Abs(v)[n].DirNode? && e < |Abs(v)[n].entries|
    ensures var c := Abs(v)[n].entries[e].inum;
            c in Abs(v) && c != 0 && c != n && Live(v, c)
  {
    DirObj(v, n);
    EntryTargetIn(Abs(v), n, e);
    AbsAt(v, Abs(v)[n].entries[e].inum);
  }

  lemma EntryTargetIn(N: map<int, Node>, n: int, e: int)
    requires Tree(N) && n in N && N[n].DirNode? && 0 <= e < |N[n].entries|
    ensures var c := N[n].entries[e].inum;
            c in N && c != 0 && c != n && c >= 0 && GoodName(N[n].entries[e].name)
  {
    var at: map<int, Loc>, rank: map<int, nat> :| Named(N, at, rank);
    assert GoodEntry(N, at, rank, n, e);
  }

  /** The entry and the object it names are gone. */
  ghost function RemoveObject(v: Vol, n: int, e: int): (v': Vol)
    requires Consistent(v) && InDirectory(v, n, e)
  {
    EntryTarget(v, n, e);
    LoseEntryAbs(v, n, e);
    var c := Abs(v)[n].entries[e].inum;
    var v1 := LoseEntry(v, n, e);
    AbsAt(v1, c);
    DropObj(v1, c)
  }

  /** `unlink`: an error changes nothing; otherwise the entry goes, later entries move down, and the named
      object and its blocks are freed. */
  ghost function Unlink(v: Vol, parent: int, name: Name): Outcome
    requires Consistent(v)
  {
    if name == "." || name == ".." then Outcome(v, -EUNLINKNOTALLOWED)
    else if name == "" then Outcome(v, -EINVALIDNAME)
    else if !IsDir(v, parent) then Outcome(v, -EINVALIDINODE)
    else
      DirObj(v, parent);
      var e := Find(Abs(v)[parent].entries, name);
      if e < 0 then Outcome(v, -EINVALIDNAME)
      else
        EntryTarget(v, parent, e);
        if !Removable(Abs(v), Abs(v)[parent].entries[e].inum) then Outcome(v, -EDIRNOTEMPTY)
        else Outcome(RemoveObject(v, parent, e), 0)
  }

  /** A failing call returns the volume it was given; a successful one removes exactly the named entry and
      the object, which was a file or an empty directory. */
  ghost predicate Unlinked(v: Vol, parent: int, name: Name, out: Outcome)
    requires Sound(v)
  {
    && (out.ret < 0 ==> out.vol == v)
    && (out.ret >= 0 ==>
          && out.ret == 0 && Sound(out.vol)
          && parent in Abs(v) && Abs(v)[parent].DirNode?
          && var e := Find(Abs(v)[parent].entries, name);
          && e >= 0
          && Removable(Abs(v), Abs(v)[parent].entries[e].inum)
          && Abs(out.vol) == Removed(Abs(v), parent, e))
  }

  lemma RemoveObjectRefines(v: Vol, n: int, e: int)
    requires Consistent(v) && InDirectory(v, n, e)
    requires n in Abs(v) && Abs(v)[n].DirNode? && e < |Abs(v)[n].entries|
    requires Removable(Abs(v), Abs(v)[n].entries[e].inum)
    ensures var v' := RemoveObject(v, n, e);
            Consistent(v') && v'.super == v.super && Abs(v') == Removed(Abs(v), n, e)
  {
    EntryTarget(v, n, e);
    LoseEntryAbs(v, n, e);
    var c := Abs(v)[n].entries[e].inum;
    var v1 := LoseEntry(v, n, e);
    AbsAt(v1, c);
    DropObjAbs(v1, c);
    RemovedTree(Abs(v), n, e);
  }

  /** `unlink` keeps the volume consistent and does to the namespace what its name says. */
  lemma UnlinkRefines(v: Vol, parent: int, name: Name)
    requires Consistent(v)
    ensures var out := Unlink(v, parent, name);
            Consistent(out.vol) && out.vol.super == v.super && Unlinked(v, parent, name, out)
  {
    hide Owns, GoodObjs, GoodDir, Find, RemoveObject;
    if name != "." && name != ".." && name != "" && IsDir(v, parent) {
      DirObj(v, parent);
      var e := Find(Abs(v)[parent].entries, name);
      if e >= 0 {
        EntryTarget(v, parent, e);
        if Removable(Abs(v), Abs(v)[parent].entries[e].inum) {
          RemoveObjectRefines(v, parent, e);
        }
      }
    }
  }

  /** Which answer `unlink` gives. */
  lemma UnlinkAnswers(v: Vol, d: int, name: Name)
    requires Consistent(v)
    ensures var N, m, ret := Abs(v), Lookup(Abs(v), d, name), Unlink(v, d, name).ret;
            if name in [".", ".."] then ret == -EUNLINKNOTALLOWED
            else if name == "" then ret == -EINVALIDNAME
            else if d !in N || !N[d].DirNode? then ret == -EINVALIDINODE
            else if m !in N then ret == -EINVALIDNAME
            else if N[m].DirNode? && N[m].entries != [] then ret == -EDIRNOTEMPTY
            else ret == 0
  {
    hide Owned, GoodObjs, Abs, Find, RemoveObject;
    AbsAt(v, d);
    if d in Abs(v) {
      LiveNode(v, d);
      if Abs(v)[d].DirNode? {
        var e := Find(Abs(v)[d].entries, name);
        if e >= 0 { EntryTargetIn(Abs(v), d, e); } else { LookupIn(Abs(v), d, name); }
      }
    }
  }
}
