/** The single writes that `create` makes add up to its function on volumes. */
module CreateSteps {
  import opened Ufs
  import opened Volume
  import opened Storage
  import opened Objects
  import opened Consistency
  import opened CreateSpec
  import opened Namespace
  import opened LookupScan

  /** `w` is `v` except, perhaps, for the contents of inode slot `i`. */
  ghost predicate AllBut(w: Vol, v: Vol, i: int) {
    && 0 <= i < |v.inodes| && |w.inodes| == |v.inodes|
    && w == v.(inodes := v.inodes[i := w.inodes[i]])
  }

  lemma AllButPut(w: Vol, v: Vol, i: int, n: int, inode: Inode, dbits: seq<bool>, data: seq<Block>)
    requires AllBut(w, v, i) && n != i && 0 <= n < |v.inodes|
    ensures w.inodes[n] == v.inodes[n]
    ensures AllBut(w.(inodes := w.inodes[n := inode], dbits := dbits, data := data),
                   v.(inodes := v.inodes[n := inode], dbits := dbits, data := data), i)
  {
    assert w.inodes[n := inode] == v.inodes[n := inode][i := w.inodes[i]];
  }

  lemma ReassignSame(bits: seq<bool>, slots: seq<int>)
    requires forall k :: 0 <= k < |slots| ==> 0 <= slots[k] < |bits| && bits[slots[k]]
    ensures Reassign(bits, slots, slots) == bits
  {
  }

  lemma ReassignMore(bits: seq<bool>, slots: seq<int>, d: int)
    requires forall k :: 0 <= k < |slots| ==> 0 <= slots[k] < |bits| && bits[slots[k]]
    requires 0 <= d < |bits|
    ensures Reassign(bits, slots, slots + [d]) == bits[d := true]
  {
  }

  lemma PutSame(v: Vol, slots: seq<int>)
    requires InRange(v, slots) && Distinct(slots)
    ensures PutBlocks(v.data, slots, BlocksAt(v, slots)) == v.data
  {
    PutBlocksAt(v.data, slots, BlocksAt(v, slots));
    var data' := PutBlocks(v.data, slots, BlocksAt(v, slots));
    forall b | 0 <= b < |v.data|
      ensures data'[b] == v.data[b]
    {
      if b in slots {
        var k := IndexOf(slots, b);
      }
    }
  }

  lemma PutOne(v: Vol, slots: seq<int>, k: int, block: Block)
    requires InRange(v, slots) && Distinct(slots) && 0 <= k < |slots|
    ensures PutBlocks(v.data, slots, BlocksAt(v, slots)[k := block]) == v.data[slots[k] := block]
  {
    var blocks := BlocksAt(v, slots)[k := block];
    PutBlocksAt(v.data, slots, blocks);
    var data' := PutBlocks(v.data, slots, blocks);
    forall b | 0 <= b < |v.data|
      ensures data'[b] == v.data[slots[k] := block][b]
    {
      if b in slots {
        var l := IndexOf(slots, b);
        assert data'[slots[l]] == blocks[l];
      }
    }
  }

  lemma AddObjectFields(v: Vol, i: int, typ: int, parent: int)
    requires Sound(v) && IsType(typ) && CanAdd(v, i, typ)
    ensures var d := FreeData(v);
            AddObject(v, i, typ, parent) == v.(
              ibits := v.ibits[i := true],
              inodes := v.inodes[i := NewInode(v, i, typ)],
              dbits := if typ == UFS_DIRECTORY then v.dbits[d := true] else v.dbits,
              data := if typ == UFS_DIRECTORY then v.data[d := NewDirBlock(i, parent)] else v.data)
  {
    hide Owns, GoodObjs, GoodDir, Reassign, PutBlocks, NewDirBlock, MayHold, FreeData;
    NewObjectFits(v, i, typ, parent);
    NewSlots(v, i, typ);
    if typ == UFS_DIRECTORY {
      FreeDataInRange(v);
      ReassignMore(v.dbits, [], FreeData(v));
      assert [] + [FreeData(v)] == [FreeData(v)];
      PutOneBlock(v.data, FreeData(v), NewDirBlock(i, parent));
    } else {
      ReassignSame(v.dbits, []);
      PutNoBlock(v.data);
    }
  }

  lemma NewSlots(v: Vol, i: int, typ: int)
    requires WfVol(v) && IsType(typ) && CanAdd(v, i, typ)
    ensures Slots(v, NewInode(v, i, typ)) == if typ == UFS_DIRECTORY then [FreeData(v)] else []
  {
  }

  lemma FreeDataInRange(v: Vol)
    requires WfVol(v) && FreeData(v) < v.super.numData
    ensures FreeData(v) < |v.dbits| && FreeData(v) < |v.data|
  {
  }

  lemma PutOneBlock(data: seq<Block>, d: nat, block: Block)
    requires d < |data|
    ensures PutBlocks(data, [d], [block]) == data[d := block]
  {
  }

  lemma PutNoBlock(data: seq<Block>)
    ensures PutBlocks(data, [], []) == data
  {
  }

  /** The place after the last entry is entry `j` of block `k`. */
  ghost predicate NextEntry(inode: Inode, k: int, j: int) {
    0 <= k && 0 <= j < 128 && inode.size / 32 == 128 * k + j
  }

  lemma RoomParts(v: Vol, n: int, ent: DirEnt, k: int, j: int)
    requires Sound(v) && IsDir(v, n) && GoodDir(n, ObjAt(v, n)) && HasRoom(ObjAt(v, n))
    requires NextEntry(v.inodes[n], k, j)
    ensures CanEnter(v, n) && EnteredInode(v, n) == v.inodes[n].(size := v.inodes[n].size + 32)
    ensures GoodInode(EnteredInode(v, n)) && Slots(v, EnteredInode(v, n)) == SlotsAt(v, n)
    ensures && k < |SlotsAt(v, n)| && 0 <= SlotsAt(v, n)[k] < |v.data|
            && var b := SlotsAt(v, n)[k];
            && v.data[b].DirBlock?
            && AddEntry(n, ObjAt(v, n), ent).blocks
               == ObjAt(v, n).blocks[k := DirBlock(v.data[b].entries[j := ent])]
  {
    hide Owns, GoodObjs, MayHold;
    EnteredInRoom(v, n);
    DirObj(v, n);
    assert v.inodes[n].size / 32 / 128 == k && v.inodes[n].size / 32 % 128 == j;
    ObjBlock(v, n, k);
    assert NumBlocks(EnteredInode(v, n).size) == NumBlocks(v.inodes[n].size);
  }

  lemma EnterInRoomFields(v: Vol, n: int, ent: DirEnt, k: int, j: int)
    requires Sound(v) && IsDir(v, n) && GoodDir(n, ObjAt(v, n)) && HasRoom(ObjAt(v, n))
    requires NextEntry(v.inodes[n], k, j)
    ensures CanEnter(v, n)
    ensures && k < |SlotsAt(v, n)| && 0 <= SlotsAt(v, n)[k] < |v.data|
            && var b := SlotsAt(v, n)[k];
            && v.data[b].DirBlock?
            && EnterName(v, n, ent) == v.(
                 inodes := v.inodes[n := v.inodes[n].(size := v.inodes[n].size + 32)],
                 data := v.data[b := DirBlock(v.data[b].entries[j := ent])])
  {
    hide Owns, GoodObjs, GoodDir, Reassign, MayHold, AddEntry, EnteredInode, CanEnter, HasRoom, PutBlocks, SlotsAt,
        Slots, NodeOf, Abs, NumBlocks, Distinct;
    DirObj(v, n);
    SlotsInRange(v, n);
    RoomParts(v, n, ent, k, j);
    var slots := SlotsAt(v, n);
    var b := slots[k];
    ReassignSame(v.dbits, slots);
    PutOne(v, slots, k, DirBlock(v.data[b].entries[j := ent]));
    assert v.ibits[n := true] == v.ibits;
  }

  lemma AddEntryFull(n: int, o: Obj, ent: DirEnt)
    requires GoodDir(n, o) && !HasRoom(o)
    ensures AddEntry(n, o, ent).blocks == o.blocks + [NewEntryBlock(ent)]
  {
    hide GoodDir, NewEntryBlock;
  }

  lemma NewBlockSlots(v: Vol, n: int)
    requires Sound(v) && IsDir(v, n) && GoodDir(n, ObjAt(v, n)) && !HasRoom(ObjAt(v, n)) && CanEnter(v, n)
    ensures GoodInode(EnteredInode(v, n)) && Slots(v, EnteredInode(v, n)) == SlotsAt(v, n) + [FreeData(v)]
  {
    hide Owns, GoodObjs, GoodDir, NodeOf, Slots, MayHold, EnteredInode, CanEnter, FreeData, ObjAt;
    DirObj(v, n);
    EnteredInodeIs(v, n);
    FullAt(v, n);
    SlotsGrow(v, v.inodes[n], EnteredInode(v, n), FreeData(v));
  }

  lemma EnterInNewBlockFields(v: Vol, n: int, ent: DirEnt)
    requires Sound(v) && IsDir(v, n) && GoodDir(n, ObjAt(v, n)) && !HasRoom(ObjAt(v, n)) && CanEnter(v, n)
    ensures var inode, d := v.inodes[n], FreeData(v);
            && 0 <= NumBlocks(inode.size) < 30
            && EnterName(v, n, ent) == v.(
                 inodes := v.inodes[n := inode.(
                   size := inode.size + 32,
                   direct := inode.direct[NumBlocks(inode.size) := v.super.dataRegionAddr + d])],
                 dbits := v.dbits[d := true],
                 data := v.data[d := NewEntryBlock(ent)])
  {
    hide Owns, GoodObjs, GoodDir, Reassign, MayHold, AddEntry, EnteredInode, CanEnter, HasRoom, PutBlocks, FreeData;
    DirObj(v, n);
    SlotsInRange(v, n);
    EnteredInodeIs(v, n);
    NewBlockSlots(v, n);
    AddEntryFull(n, ObjAt(v, n), ent);
    EnteredInNewBlock(v, n);
    var slots, d := SlotsAt(v, n), FreeData(v);
    ReassignMore(v.dbits, slots, d);
    PutSame(v, slots);
    PutAppended(v.data, slots, d, ObjAt(v, n).blocks, NewEntryBlock(ent));
    assert v.ibits[n := true] == v.ibits;
  }

  lemma PutAppended(data: seq<Block>, slots: seq<int>, d: int, blocks: seq<Block>, block: Block)
    requires |slots| == |blocks| && 0 <= d < |data|
    requires forall k :: 0 <= k < |slots| ==> 0 <= slots[k] < |data|
    ensures PutBlocks(data, slots + [d], blocks + [block]) == PutBlocks(data, slots, blocks)[d := block]
  {
    assert (slots + [d])[..|slots|] == slots && (blocks + [block])[..|slots|] == blocks;
  }

  /** Every entry below the size is in use. */
  ghost predicate Packed(n: int, o: Obj) {
    GoodDir(n, o) && forall e :: 0 <= e < o.size / 32 ==> e < |Entries(o.blocks)| && Entries(o.blocks)[e].inum != -1
  }

  lemma DirectoryPacked(v: Vol, n: int)
    requires Consistent(v) && IsDir(v, n)
    ensures Packed(n, ObjAt(v, n))
  {
    hide Owns, GoodObjs, Entries, Tree, NodeOf, Abs;
    DirObj(v, n);
    EntriesUsed(Abs(v), n, ObjAt(v, n));
  }

  /** Adding an object leaves every other directory as it is. */
  lemma AddObjectKeeps(v: Vol, i: int, typ: int, parent: int, n: int)
    requires Sound(v) && IsType(typ) && CanAdd(v, i, typ) && IsDir(v, n)
    ensures i != n && Sound(AddObject(v, i, typ, parent)) && IsDir(AddObject(v, i, typ, parent), n)
    ensures AddObject(v, i, typ, parent).inodes[n] == v.inodes[n]
    ensures ObjAt(AddObject(v, i, typ, parent), n) == ObjAt(v, n)
  {
    NewObjectFits(v, i, typ, parent);
    AddObjectAbs(v, i, typ, parent);
    SetObjFrame(v, i, NewInode(v, i, typ), NewBlocks(i, typ, parent), n);
  }

  ghost predicate FreeAt(page: DirPage, size: int, first: int, j: int) {
    0 <= j < 128 && (size <= 32 * (first + j) || page[j].inum == -1)
  }

  /** In a packed directory the scan for a free place stops right behind the last entry. */
  lemma FreePlace(n: int, o: Obj, k: nat, page: DirPage, j: int)
    requires Packed(n, o)
    requires 128 * k + 128 <= |Entries(o.blocks)| && page == Entries(o.blocks)[128 * k..128 * k + 128]
    requires 128 * k <= o.size / 32
    requires 0 <= j <= 128 && (forall t :: 0 <= t < j ==> !FreeAt(page, o.size, 128 * k, t))
    requires j < 128 ==> FreeAt(page, o.size, 128 * k, j)
    ensures j < 128 ==> o.size / 32 == 128 * k + j
    ensures j == 128 ==> 128 * (k + 1) <= o.size / 32
  {
    var e := o.size / 32;
    var es := Entries(o.blocks);
    if j < 128 {
      assert page[j] == es[128 * k + j];
    }
    if e - 128 * k < 128 {
      assert FreeAt(page, o.size, 128 * k, e - 128 * k);
    }
  }

  lemma AddObjectAllBut(v: Vol, i: int, typ: int, parent: int)
    requires Sound(v) && IsType(typ) && CanAdd(v, i, typ)
    ensures var v1 := AddObject(v, i, typ, parent);
            AllBut(v1.(inodes := v.inodes), v1, i)
  {
    AddObjectFields(v, i, typ, parent);
    var v1 := AddObject(v, i, typ, parent);
    assert v1.inodes[i := v.inodes[i]] == v.inodes;
  }
}
