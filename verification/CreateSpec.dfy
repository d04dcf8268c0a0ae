/** `create` as a function on consistent volumes. */
module CreateSpec {
  import opened Ufs
  import opened Bits
  import opened Volume
  import opened Storage
  import opened Objects
  import opened Namespace
  import opened Consistency

  datatype Outcome = Outcome(vol: Vol, ret: int)

  ghost predicate IsType(typ: int) {
    typ == UFS_DIRECTORY || typ == UFS_REGULAR_FILE
  }

  ghost function FreeData(v: Vol): (d: nat) {
    FirstClear(v.dbits, 0)
  }

  ghost function FreeInode(v: Vol): (i: nat) {
    FirstClear(v.ibits, 0)
  }

  /** The inode of a new, empty object: of the pointers only the first is set, and only for a directory. */
  ghost function NewInode(v: Vol, i: int, typ: int): Inode
    requires WfVol(v) && 0 <= i < v.super.numInodes
  {
    var old' := v.inodes[i];
    if typ == UFS_DIRECTORY then Inode(typ, 64, old'.direct[0 := v.super.dataRegionAddr + FreeData(v)])
    else Inode(typ, 0, old'.direct)
  }

  ghost function NewBlocks(i: int, typ: int, parent: int): seq<Block> {
    if typ == UFS_DIRECTORY then [NewDirBlock(i, parent)] else []
  }

  ghost function NewNode(typ: int, parent: int): Node {
    if typ == UFS_DIRECTORY then DirNode(parent, []) else FileNode([])
  }

  ghost predicate CanAdd(v: Vol, i: int, typ: int)
    requires WfVol(v)
  {
    i == FreeInode(v) && i < v.super.numInodes && (typ == UFS_DIRECTORY ==> FreeData(v) < v.super.numData)
  }

  lemma NewObjectFits(v: Vol, i: int, typ: int, parent: int)
    requires Sound(v) && IsType(typ) && CanAdd(v, i, typ)
    ensures !Live(v, i)
    ensures MayHold(v, i, NewInode(v, i, typ))
    ensures |NewBlocks(i, typ, parent)| == NumBlocks(NewInode(v, i, typ).size)
  {
  }

  /** The lowest free inode becomes an empty object. */
  ghost function AddObject(v: Vol, i: int, typ: int, parent: int): (v': Vol)
    requires Sound(v) && IsType(typ) && CanAdd(v, i, typ)
    ensures WfVol(v') && v'.super == v.super
  {
    NewObjectFits(v, i, typ, parent);
    SetObj(v, i, NewInode(v, i, typ), NewBlocks(i, typ, parent))
  }

  lemma AddObjectAbs(v: Vol, i: int, typ: int, parent: int)
    requires Sound(v) && IsType(typ) && CanAdd(v, i, typ)
    ensures i !in Abs(v)
    ensures var v' := AddObject(v, i, typ, parent);
            Sound(v') && v'.super == v.super && Abs(v') == Abs(v)[i := NewNode(typ, parent)]
  {
    NewObjectFits(v, i, typ, parent);
    AbsAt(v, i);
    if typ == UFS_DIRECTORY { NewDirGood(i, parent); } else { NewFileGood(i); }
    SetObjAbs(v, i, NewInode(v, i, typ), NewBlocks(i, typ, parent));
  }

  ghost predicate IsDir(v: Vol, n: int)
    requires WfVol(v)
  {
    Live(v, n) && v.inodes[n].typ == UFS_DIRECTORY
  }

  lemma DirObj(v: Vol, n: int)
    requires Sound(v) && IsDir(v, n)
    ensures var o := ObjAt(v, n);
            && o.typ == UFS_DIRECTORY && GoodDir(n, o) && o.size == v.inodes[n].size
            && n in Abs(v) && Abs(v)[n] == NodeOf(n, o) && Abs(v)[n].DirNode?
    ensures 64 <= v.inodes[n].size <= 122880 && v.inodes[n].size % 32 == 0
    ensures |Abs(v)[n].entries| == v.inodes[n].size / 32 - 2
  {
    LiveNode(v, n);
  }

  /** Whether directory `n` can take one more entry: there is room in its last block, or both a pointer
      and a data block for a new one. */
  ghost predicate CanEnter(v: Vol, n: int)
    requires Sound(v) && IsDir(v, n)
  {
    DirObj(v, n);
    || HasRoom(ObjAt(v, n))
    || (NumBlocks(v.inodes[n].size) < DIRECT_PTRS && FreeData(v) < v.super.numData)
  }

  ghost function EnteredInode(v: Vol, n: int): Inode
    requires Sound(v) && IsDir(v, n) && CanEnter(v, n)
  {
    DirObj(v, n);
    var inode := v.inodes[n];
    if HasRoom(ObjAt(v, n)) then inode.(size := inode.size + 32)
    else inode.(size := inode.size + 32,
                direct := inode.direct[NumBlocks(inode.size) := v.super.dataRegionAddr + FreeData(v)])
  }

  lemma EnteredInRoom(v: Vol, n: int)
    requires Sound(v) && IsDir(v, n) && GoodDir(n, ObjAt(v, n)) && HasRoom(ObjAt(v, n))
    ensures CanEnter(v, n) && MayHold(v, n, EnteredInode(v, n))
    ensures NumBlocks(EnteredInode(v, n).size) == NumBlocks(v.inodes[n].size)
  {
    DirObj(v, n);
    SlotsInRange(v, n);
    var inode := EnteredInode(v, n);
    assert NumBlocks(inode.size) == NumBlocks(v.inodes[n].size);
    assert Slots(v, inode) == SlotsAt(v, n);
  }

  lemma FullDirectory(size: int)
    requires 0 <= size && size % 32 == 0 && size / 32 >= 128 * NumBlocks(size)
    ensures size == 4096 * NumBlocks(size)
    ensures NumBlocks(size + 32) == NumBlocks(size) + 1
  {
  }

  lemma FullObject(o: Obj)
    requires 0 <= o.size && o.size % 32 == 0 && !HasRoom(o)
    ensures o.size == 4096 * NumBlocks(o.size) && NumBlocks(o.size + 32) == NumBlocks(o.size) + 1
  {
    FullDirectory(o.size);
  }

  lemma FullAt(v: Vol, n: int)
    requires Sound(v) && IsDir(v, n) && !HasRoom(ObjAt(v, n))
    ensures var size := v.inodes[n].size;
            size == 4096 * NumBlocks(size) && NumBlocks(size + 32) == NumBlocks(size) + 1
  {
    hide Owned, GoodObjs, GoodDir, NodeOf, HasRoom, NumBlocks, ObjAt;
    DirObj(v, n);
    FullObject(ObjAt(v, n));
  }

  /** The inode of a full directory, entered into. */
  lemma EnteredInodeIs(v: Vol, n: int)
    requires Sound(v) && IsDir(v, n) && !HasRoom(ObjAt(v, n)) && CanEnter(v, n)
    ensures var inode := v.inodes[n];
            && 0 <= NumBlocks(inode.size) < 30
            && FreeData(v) < v.super.numData
            && EnteredInode(v, n)
               == inode.(size := inode.size + 32,
                         direct := inode.direct[NumBlocks(inode.size) := v.super.dataRegionAddr + FreeData(v)])
  {
    hide Owned, GoodObjs, GoodDir, NodeOf, ObjAt, FreeData;
    DirObj(v, n);
  }

  lemma SlotsGrow(v: Vol, inode: Inode, inode': Inode, d: int)
    requires GoodInode(inode) && GoodInode(inode')
    requires NumBlocks(inode'.size) == NumBlocks(inode.size) + 1
    requires inode'.direct == inode.direct[NumBlocks(inode.size) := v.super.dataRegionAddr + d]
    ensures Slots(v, inode') == Slots(v, inode) + [d]
  {
  }

  lemma EnteredInNewBlock(v: Vol, n: int)
    requires Sound(v) && IsDir(v, n) && GoodDir(n, ObjAt(v, n)) && !HasRoom(ObjAt(v, n)) && CanEnter(v, n)
    ensures MayHold(v, n, EnteredInode(v, n))
    ensures NumBlocks(EnteredInode(v, n).size) == NumBlocks(v.inodes[n].size) + 1
  {
    hide Owns, GoodObjs, GoodDir, NodeOf, ObjAt, MayHold, HasRoom, CanEnter, EnteredInode, Slots;
    DirObj(v, n);
    EnteredInodeIs(v, n);
    var inode := EnteredInode(v, n);
    FullAt(v, n);
    assert GoodInode(inode);
    SlotsGrow(v, v.inodes[n], inode, FreeData(v));
    MayHoldMore(v, n, inode, FreeData(v));
  }

  lemma EnteredInodeFits(v: Vol, n: int, ent: DirEnt)
    requires Sound(v) && IsDir(v, n) && CanEnter(v, n)
    ensures MayHold(v, n, EnteredInode(v, n))
    ensures GoodDir(n, ObjAt(v, n))
    ensures |AddEntry(n, ObjAt(v, n), ent).blocks| == NumBlocks(EnteredInode(v, n).size)
  {
    DirObj(v, n);
    if HasRoom(ObjAt(v, n)) { EnteredInRoom(v, n); } else { EnteredInNewBlock(v, n); }
  }

  /** Directory `n` gets entry `ent` after its last one. */
  ghost function EnterName(v: Vol, n: int, ent: DirEnt): (v': Vol)
    requires Sound(v) && IsDir(v, n) && CanEnter(v, n)
    ensures WfVol(v') && v'.super == v.super
  {
    EnteredInodeFits(v, n, ent);
    SetObj(v, n, EnteredInode(v, n), AddEntry(n, ObjAt(v, n), ent).blocks)
  }

  lemma EnterNameAbs(v: Vol, n: int, ent: DirEnt)
    requires Sound(v) && IsDir(v, n) && CanEnter(v, n)
    ensures var v' := EnterName(v, n, ent);
            && Sound(v') && v'.super == v.super
            && n in Abs(v) && Abs(v)[n].DirNode?
            && Abs(v') == Abs(v)[n := Abs(v)[n].(entries := Abs(v)[n].entries + [ent])]
  {
    DirObj(v, n);
    EnteredInodeFits(v, n, ent);
    AddEntryGood(n, ObjAt(v, n), ent);
    var inode := EnteredInode(v, n);
    assert AddEntry(n, ObjAt(v, n), ent).size == inode.size;
    SetObjAbs(v, n, inode, AddEntry(n, ObjAt(v, n), ent).blocks);
  }

  /** `create` of an absent name: the lowest free inode becomes a new object, entered last into the parent. */
  ghost function CreateNew(v: Vol, parent: int, typ: int, name: Name): Outcome
    requires Sound(v) && IsType(typ) && IsDir(v, parent)
  {
    var i := FreeInode(v);
    if !CanAdd(v, i, typ) then Outcome(v, -ENOTENOUGHSPACE)
    else
      AddObjectAbs(v, i, typ, parent);
      var v1 := AddObject(v, i, typ, parent);
      StillDir(v, parent, i, typ);
      if !CanEnter(v1, parent) then Outcome(v, -ENOTENOUGHSPACE)
      else Outcome(EnterName(v1, parent, DirEnt(name, i)), i)
  }

  /** `create`: an error changes nothing; an existing object of the right type is returned as it is. */
  ghost function Create(v: Vol, parent: int, typ: int, name: Name): Outcome
    requires Consistent(v) && IsType(typ)
  {
    if !GoodName(name) then Outcome(v, -EINVALIDNAME)
    else if !IsDir(v, parent) then Outcome(v, -EINVALIDINODE)
    else
      var found := Lookup(Abs(v), parent, name);
      if found == -ENOTFOUND then CreateNew(v, parent, typ, name)
      else
        LookupLive(v, parent, name);
        if v.inodes[found].typ != typ then Outcome(v, -EINVALIDTYPE) else Outcome(v, found)
  }

  lemma StillDir(v: Vol, parent: int, i: int, typ: int)
    requires Sound(v) && IsType(typ) && CanAdd(v, i, typ) && IsDir(v, parent)
    requires WfVol(AddObject(v, i, typ, parent))
    ensures IsDir(AddObject(v, i, typ, parent), parent)
    ensures AddObject(v, i, typ, parent).inodes[parent] == v.inodes[parent]
  {
    NewObjectFits(v, i, typ, parent);
  }

  lemma LookupLive(v: Vol, n: int, name: Name)
    requires Consistent(v)
    ensures var r := Lookup(Abs(v), n, name);
            r != -ENOTFOUND && r != -EINVALIDINODE ==> Live(v, r) && r in Abs(v)
    ensures IsDir(v, n) <==> Lookup(Abs(v), n, name) != -EINVALIDINODE
  {
    LookupIn(Abs(v), n, name);
    AbsAt(v, Lookup(Abs(v), n, name));
    if Live(v, n) { LiveNode(v, n); }
    AbsAt(v, n);
  }

  /** A new object changes nothing but its own number and the entries of its parent. */
  ghost predicate CreatedNew(v: Vol, parent: int, typ: int, name: Name, out: Outcome)
    requires Sound(v)
  {
    && Consistent(out.vol) && out.vol.super == v.super
    && parent in Abs(v) && Abs(v)[parent].DirNode?
    && out.ret !in Abs(v) && out.ret == FreeInode(v) < v.super.numInodes
    && Abs(out.vol) == Entered(Abs(v), parent, name, out.ret, NewNode(typ, parent))
  }

  lemma EnteredInSteps(N: map<int, Node>, parent: int, name: Name, i: int, node: Node)
    requires parent in N && N[parent].DirNode? && i != parent
    ensures var N1 := N[i := node];
            N1[parent := N1[parent].(entries := N1[parent].entries + [DirEnt(name, i)])]
                == Entered(N, parent, name, i, node)
  {
  }

  /** `create` keeps the volume consistent, and adds exactly the new object under exactly the given name. */
  lemma CreateNewRefines(v: Vol, parent: int, typ: int, name: Name)
    requires Consistent(v) && IsType(typ)
    requires GoodName(name) && IsDir(v, parent) && Lookup(Abs(v), parent, name) == -ENOTFOUND
    ensures var out := CreateNew(v, parent, typ, name);
            || out == Outcome(v, -ENOTENOUGHSPACE)
            || CreatedNew(v, parent, typ, name, out)
  {
    hide Owns, GoodObjs, GoodDir, Tree, Abs, AddObject, EnterName, CanEnter, Entered, NodeOf, ObjAt, Lookup;
    DirObj(v, parent);
    var i := FreeInode(v);
    if CanAdd(v, i, typ) {
      AddObjectAbs(v, i, typ, parent);
      var v1 := AddObject(v, i, typ, parent);
      StillDir(v, parent, i, typ);
      if CanEnter(v1, parent) {
        EnterNameAbs(v1, parent, DirEnt(name, i));
        EnteredTree(Abs(v), parent, name, i, NewNode(typ, parent));
        EnteredInSteps(Abs(v), parent, name, i, NewNode(typ, parent));
      }
    }
  }

  /** A failing call returns the volume it was given, and so does one that finds an object of the type
      asked for; any other call adds exactly one empty object. */
  ghost predicate Created(v: Vol, parent: int, typ: int, name: Name, out: Outcome)
    requires Sound(v)
  {
    && (out.ret < 0 ==> out.vol == v)
    && (out.ret >= 0 ==>
          && IsDir(v, parent) && GoodName(name)
          && (if Lookup(Abs(v), parent, name) == -ENOTFOUND then CreatedNew(v, parent, typ, name, out)
              else out.vol == v && out.ret == Lookup(Abs(v), parent, name)
                   && Live(v, out.ret) && v.inodes[out.ret].typ == typ))
  }

  lemma CreateOfExisting(v: Vol, parent: int, typ: int, name: Name)
    requires Consistent(v) && IsType(typ)
    requires GoodName(name) && IsDir(v, parent) && Lookup(Abs(v), parent, name) != -ENOTFOUND
    ensures Created(v, parent, typ, name, Create(v, parent, typ, name))
    ensures Create(v, parent, typ, name).vol == v
  {
    LookupLive(v, parent, name);
  }

  lemma CreateOfAbsent(v: Vol, parent: int, typ: int, name: Name)
    requires Consistent(v) && IsType(typ)
    requires GoodName(name) && IsDir(v, parent) && Lookup(Abs(v), parent, name) == -ENOTFOUND
    ensures Create(v, parent, typ, name) == CreateNew(v, parent, typ, name)
  {
  }

  /** `create` keeps the volume consistent and does to the namespace what its name says. */
  lemma CreateRefines(v: Vol, parent: int, typ: int, name: Name)
    requires Consistent(v) && IsType(typ)
    ensures var out := Create(v, parent, typ, name);
            Consistent(out.vol) && out.vol.super == v.super && Created(v, parent, typ, name, out)
  {
    if !GoodName(name) || !IsDir(v, parent) {
    } else if Lookup(Abs(v), parent, name) == -ENOTFOUND {
      CreateOfAbsent(v, parent, typ, name);
      CreateNewRefines(v, parent, typ, name);
    } else {
      CreateOfExisting(v, parent, typ, name);
    }
  }

  // When `create` succeeds

  /** The blocks of directory `n` hold no more entries. */
  ghost predicate Full(v: Vol, n: int)
    requires Sound(v) && IsDir(v, n)
  {
    v.inodes[n].size % 4096 == 0
  }

  lemma RoomIsNotFull(v: Vol, n: int)
    requires Sound(v) && IsDir(v, n)
    ensures HasRoom(ObjAt(v, n)) <==> !Full(v, n)
  {
    hide Owns, GoodObjs, GoodDir, NodeOf, ObjAt;
    DirObj(v, n);
    RoomAt(v.inodes[n].size);
  }

  lemma RoomAt(size: int)
    requires 0 < size && size % 32 == 0
    ensures size / 32 < 128 * NumBlocks(size) <==> size % 4096 != 0
  {
  }

  /** The data blocks that a new object takes itself. */
  ghost function OwnBlocks(typ: int): nat {
    if typ == UFS_DIRECTORY then 1 else 0
  }

  lemma CanAddIff(v: Vol, i: int, typ: int)
    requires WfVol(v) && IsType(typ) && i == FreeInode(v)
    ensures CanAdd(v, i, typ)
            <==> Clear(v.ibits, v.super.numInodes) >= 1 && Clear(v.dbits, v.super.numData) >= OwnBlocks(typ)
  {
    FirstClearFits(v.ibits, v.super.numInodes);
    FirstClearFits(v.dbits, v.super.numData);
  }

  lemma AddedBits(v: Vol, i: int, typ: int, parent: int)
    requires Sound(v) && IsType(typ) && CanAdd(v, i, typ)
    ensures Clear(AddObject(v, i, typ, parent).dbits, v.super.numData)
            == Clear(v.dbits, v.super.numData) - OwnBlocks(typ)
  {
    hide Owns, GoodObjs, PutBlocks;
    NewObjectFits(v, i, typ, parent);
    var slots := Slots(v, NewInode(v, i, typ));
    assert SlotsAt(v, i) == [];
    if typ == UFS_DIRECTORY {
      assert slots == [FreeData(v)];
      assert Reassign(v.dbits, [], slots) == v.dbits[FreeData(v) := true];
      ClearSet(v.dbits, FreeData(v), v.super.numData);
    } else {
      assert Reassign(v.dbits, [], slots) == v.dbits;
    }
  }

  lemma CanEnterIff(v: Vol, n: int)
    requires Sound(v) && IsDir(v, n)
    ensures CanEnter(v, n)
            <==> !Full(v, n) || (NumBlocks(v.inodes[n].size) < DIRECT_PTRS && Clear(v.dbits, v.super.numData) >= 1)
  {
    hide Owns, GoodObjs, GoodDir, NodeOf, ObjAt, HasRoom, Full;
    DirObj(v, n);
    RoomIsNotFull(v, n);
    FirstClearFits(v.dbits, v.super.numData);
  }

  /** `create` of an absent name succeeds exactly if the name is a good one, an inode is free, a data block for a
      directory and one more for a parent whose blocks are full, and such a parent has a pointer left. */
  lemma CreateSucceedsIff(v: Vol, parent: int, typ: int, name: Name)
    requires Consistent(v) && IsType(typ) && Lookup(Abs(v), parent, name) == -ENOTFOUND
    ensures IsDir(v, parent)
    ensures Create(v, parent, typ, name).ret >= 0 <==>
              && GoodName(name)
              && Clear(v.ibits, v.super.numInodes) >= 1
              && Clear(v.dbits, v.super.numData) >= OwnBlocks(typ) + (if Full(v, parent) then 1 else 0)
              && (Full(v, parent) ==> NumBlocks(v.inodes[parent].size) < DIRECT_PTRS)
  {
    hide Owns, GoodObjs, Tree, Abs, Lookup, AddObject, EnterName, CanAdd, CanEnter, Clear;
    LookupLive(v, parent, name);
    if GoodName(name) {
      CreateOfAbsent(v, parent, typ, name);
      var i := FreeInode(v);
      CanAddIff(v, i, typ);
      if CanAdd(v, i, typ) {
        AddObjectAbs(v, i, typ, parent);
        StillDir(v, parent, i, typ);
        AddedBits(v, i, typ, parent);
        CanEnterIff(AddObject(v, i, typ, parent), parent);
      }
    }
  }
}
