/** What each call does to the inode table and the bitmaps, pointer by pointer and bit by bit. */
module Tables {
  import opened Ufs
  import opened Bits
  import opened Volume
  import opened Storage
  import opened Objects
  import opened Namespace
  import opened Consistency
  import opened CreateSpec
  import opened WriteSpec
  import opened UnlinkSpec

  // create

  lemma AddedTable(v: Vol, i: int, typ: int, parent: int)
    requires Sound(v) && IsType(typ) && CanAdd(v, i, typ)
    ensures var w, b := AddObject(v, i, typ, parent), FreeData(v);
            && w.ibits == v.ibits[i := true]
            && w.dbits == (if typ == UFS_DIRECTORY then v.dbits[b := true] else v.dbits)
            && w.inodes == v.inodes[i := NewInode(v, i, typ)]
  {
    hide Owns, GoodObjs, PutBlocks;
    NewObjectFits(v, i, typ, parent);
    var slots := Slots(v, NewInode(v, i, typ));
    assert SlotsAt(v, i) == [];
    if typ == UFS_DIRECTORY {
      assert slots == [FreeData(v)];
      assert Reassign(v.dbits, [], slots) == v.dbits[FreeData(v) := true];
    } else {
      assert Reassign(v.dbits, [], slots) == v.dbits;
    }
  }

  lemma EnteredTable(v: Vol, n: int, ent: DirEnt)
    requires Sound(v) && IsDir(v, n) && CanEnter(v, n)
    ensures Full(v, n) ==> FreeData(v) < v.super.numData
    ensures var w, inode := EnterName(v, n, ent), v.inodes[n];
            && w.ibits == v.ibits
            && w.dbits == (if Full(v, n) then v.dbits[FreeData(v) := true] else v.dbits)
            && w.inodes == v.inodes[n := EnteredInode(v, n)]
  {
    hide Owns, GoodObjs, PutBlocks, AddEntry, EnteredInode, HasRoom, Full, CanEnter, ObjAt, NodeOf, GoodDir;
    DirObj(v, n);
    RoomIsNotFull(v, n);
    EnteredInodeFits(v, n, ent);
    EnteredSlots(v, n);
    var inode := EnteredInode(v, n);
    SlotsInRange(v, n);
    if Full(v, n) {
      assert Reassign(v.dbits, SlotsAt(v, n), SlotsAt(v, n) + [FreeData(v)]) == v.dbits[FreeData(v) := true];
    } else {
      assert Reassign(v.dbits, SlotsAt(v, n), SlotsAt(v, n)) == v.dbits;
    }
  }

  lemma EnteredSlots(v: Vol, n: int)
    requires Sound(v) && IsDir(v, n) && CanEnter(v, n) && GoodDir(n, ObjAt(v, n))
    requires MayHold(v, n, EnteredInode(v, n))
    ensures Full(v, n) ==>
              FreeData(v) < v.super.numData && Slots(v, EnteredInode(v, n)) == SlotsAt(v, n) + [FreeData(v)]
    ensures !Full(v, n) ==> Slots(v, EnteredInode(v, n)) == SlotsAt(v, n)
  {
    hide Owns, GoodObjs, GoodDir, NodeOf, ObjAt, MayHold, HasRoom, Full, Slots;
    DirObj(v, n);
    RoomIsNotFull(v, n);
    SlotsAtIs(v, n);
    if Full(v, n) {
      EnteredInodeIs(v, n);
      FullAt(v, n);
      EnteredInNewBlock(v, n);
      HeldIsGood(v, n, EnteredInode(v, n));
      SlotsGrow(v, v.inodes[n], EnteredInode(v, n), FreeData(v));
    } else {
      EnteredInRoom(v, n);
      HeldIsGood(v, n, EnteredInode(v, n));
      SlotsStay(v, v.inodes[n], EnteredInode(v, n));
    }
  }

  lemma HeldIsGood(v: Vol, n: int, inode: Inode)
    requires Owned(v) && MayHold(v, n, inode)
    ensures GoodInode(inode)
  {
  }

  lemma SlotsStay(v: Vol, inode: Inode, inode': Inode)
    requires GoodInode(inode) && GoodInode(inode')
    requires NumBlocks(inode'.size) == NumBlocks(inode.size) && inode'.direct == inode.direct
    ensures Slots(v, inode') == Slots(v, inode)
  {
  }

  /** The inode of a directory with one more entry, which needs block `e` if its blocks are full. */
  lemma EnteredInodeAgain(v: Vol, n: int)
    requires Sound(v) && IsDir(v, n) && CanEnter(v, n)
    ensures var inode := v.inodes[n];
            && 0 <= inode.size / 4096 <= 30 && (Full(v, n) ==> inode.size / 4096 < 30)
            && EnteredInode(v, n)
               == Inode(inode.typ, inode.size + 32,
                        if Full(v, n) then inode.direct[inode.size / 4096 := v.super.dataRegionAddr + FreeData(v)]
                        else inode.direct)
  {
    hide Owns, GoodObjs, GoodDir, NodeOf, ObjAt, FreeData, Full;
    DirObj(v, n);
    RoomIsNotFull(v, n);
    if Full(v, n) {
      EnteredInodeIs(v, n);
      FullAt(v, n);
    }
  }

  /** The bits of the lowest free inode and of the lowest free blocks that are needed are set, one for a directory and
      then one for a full parent.  Of the inode table the new object's inode changes, which keeps all pointers but a
      directory's first, and the parent's, which gets its size and, if it was full, its next pointer. */
  ghost predicate CreatedTables(v: Vol, w: Vol, d: int, i: int, typ: int) {
    var b := FirstClear(v.dbits, 0);
    && 0 <= d < |v.inodes| && i == FirstClear(v.ibits, 0) && i < |v.ibits| && i < |v.inodes| && i != d
    && (typ == UFS_DIRECTORY ==> b < |v.dbits|)
    && var taken := if typ == UFS_DIRECTORY then v.dbits[b := true] else v.dbits;
       var e := FirstClear(taken, 0);
       var base, inode, parent, last := v.super.dataRegionAddr, v.inodes[i], v.inodes[d], v.inodes[d].size / 4096;
    && w.ibits == v.ibits[i := true]
    && if parent.size % 4096 == 0 then
         && e < |taken| && w.dbits == taken[e := true]
         && 0 <= last < 30
         && w.inodes == v.inodes[i := New(typ, inode, base + b)]
                                [d := Inode(parent.typ, parent.size + 32, parent.direct[last := base + e])]
       else
         && w.dbits == taken
         && w.inodes == v.inodes[i := New(typ, inode, base + b)]
                                [d := Inode(parent.typ, parent.size + 32, parent.direct)]
  }

  ghost function New(typ: int, inode: Inode, pointer: int): Inode {
    if typ == UFS_DIRECTORY then Inode(typ, 64, inode.direct[0 := pointer]) else Inode(typ, 0, inode.direct)
  }

  lemma NewInodeIs(v: Vol, i: int, typ: int)
    requires WfVol(v) && 0 <= i < v.super.numInodes
    ensures NewInode(v, i, typ) == New(typ, v.inodes[i], v.super.dataRegionAddr + FreeData(v))
  {
  }

  lemma CreateTables(v: Vol, d: int, typ: int, name: Name)
    requires Consistent(v) && IsType(typ) && Lookup(Abs(v), d, name) == -ENOTFOUND
    requires Create(v, d, typ, name).ret >= 0
    ensures var out := Create(v, d, typ, name);
            CreatedTables(v, out.vol, d, out.ret, typ)
  {
    hide Owns, GoodObjs, GoodDir, Tree, Abs, Lookup, AddObject, EnterName, CanEnter, EnteredInode, ObjAt, NodeOf,
        NewInode, New;
    CreateSucceedsIff(v, d, typ, name);
    CreateOfAbsent(v, d, typ, name);
    var i := FreeInode(v);
    AddObjectAbs(v, i, typ, d);
    var v1 := AddObject(v, i, typ, d);
    StillDir(v, d, i, typ);
    NewInodeIs(v, i, typ);
    AddedTable(v, i, typ, d);
    EnteredInodeAgain(v1, d);
    EnteredTable(v1, d, DirEnt(name, i));
  }

  // write

  /** The bits of the lowest free blocks that the file lacks are set, those of the blocks that it no longer needs are
      cleared, and its inode alone changes: the leading pointers stay, those to new blocks come behind them, and those
      to freed blocks become -1. */
  ghost predicate WrittenTables(v: Vol, w: Vol, n: int, slots: seq<int>, size: nat) {
    && |w.inodes| == |v.inodes| && 0 <= n < |v.inodes| && |w.dbits| == |v.dbits|
    && var inode, base := v.inodes[n], v.super.dataRegionAddr;
       var now, need := NumBlocks(inode.size), NumBlocks(size);
       var taken := TakeClear(v.dbits, if now < need then need - now else 0);
    && |slots| == now
    && w.ibits == v.ibits
    && (forall m :: 0 <= m < |v.inodes| && m != n ==> w.inodes[m] == v.inodes[m])
    && w.inodes[n].typ == inode.typ && w.inodes[n].size == size
    && (forall k :: 0 <= k < 30 ==>
          w.inodes[n].direct[k] ==
            if now <= k < need then base + taken[k - now] else if need <= k < now then 0xFFFF_FFFF else inode.direct[k])
    && (forall b :: 0 <= b < |v.dbits| ==>
          (w.dbits[b] <==> b in taken || (v.dbits[b] && !(exists k :: need <= k < now && slots[k] == b))))
  }

  lemma WriteTables(v: Vol, n: int, buf: seq<bv8>, leftover: Page)
    requires Consistent(v) && Write(v, n, buf, leftover).ret >= 0
    ensures WrittenTables(v, Write(v, n, buf, leftover).vol, n, SlotsAt(v, n), |buf|)
  {
    hide Owns, GoodObjs, Tree, Abs, PutBlocks, TakeClear, FileBlocks, NewPointers, Reassign, CanWrite, MayHold, SlotsAt;
    WrittenInodeFits(v, n, |buf|);
    WrittenPointers(v, n, |buf|);
    WrittenBits(v, n, |buf|);
    SlotsAtIs(v, n);
  }

  lemma WrittenPointers(v: Vol, n: int, size: nat)
    requires Sound(v) && IsFile(v, n) && NumBlocks(size) <= DIRECT_PTRS
    ensures var inode, now, need := v.inodes[n], NumBlocks(v.inodes[n].size), NumBlocks(size);
            && 0 <= now <= 30 && |Extra(v, n, size)| == (if now < need then need - now else 0)
            && forall k :: 0 <= k < 30 ==>
                 WrittenInode(v, n, size).direct[k] ==
                   if now <= k < need then v.super.dataRegionAddr + Extra(v, n, size)[k - now]
                   else if need <= k < now then 0xFFFF_FFFF
                   else inode.direct[k]
  {
    hide Owns, GoodObjs, TakeClear, NewPointers, SlotsAt, Slots, Store, ObjAt;
    SlotsAtIs(v, n);
    PointersAre(v.inodes[n].direct, NumBlocks(v.inodes[n].size), NumBlocks(size), Extra(v, n, size),
        v.super.dataRegionAddr);
  }

  lemma PointersAre(direct: Pointers, now: int, need: int, extra: seq<int>, base: int)
    requires 0 <= now <= 30 && 0 <= need <= 30 && |extra| == if now < need then need - now else 0
    ensures forall k :: 0 <= k < 30 ==>
              NewPointers(direct, now, need, extra, base)[k] ==
                if now <= k < need then base + extra[k - now] else if need <= k < now then 0xFFFF_FFFF else direct[k]
  {
  }

  lemma WrittenBits(v: Vol, n: int, size: nat)
    requires Sound(v) && IsFile(v, n) && NumBlocks(size) <= DIRECT_PTRS && CanWrite(v, n, size)
    ensures var slots, now, need := SlotsAt(v, n), NumBlocks(v.inodes[n].size), NumBlocks(size);
            var bits := Reassign(v.dbits, slots, Slots(v, WrittenInode(v, n, size)));
            && |slots| == now
            && forall b :: 0 <= b < |v.dbits| ==>
                 (bits[b] <==> || b in Extra(v, n, size)
                               || (v.dbits[b] && !(exists k :: need <= k < now && slots[k] == b)))
  {
    hide Owns, GoodObjs, TakeClear, WrittenInode;
    WrittenSlots(v, n, size);
    SlotsInRange(v, n);
    SlotsAtIs(v, n);
    BitsOf(v.dbits, SlotsAt(v, n), Extra(v, n, size), NumBlocks(size));
  }

  lemma BitsOf(bits: seq<bool>, slots: seq<int>, extra: seq<int>, need: nat)
    requires Distinct(slots) && forall k :: 0 <= k < |slots| ==> 0 <= slots[k] < |bits| && bits[slots[k]]
    requires |slots| >= need ==> extra == []
    ensures var kept := if |slots| < need then slots else slots[..need];
            forall b :: 0 <= b < |bits| ==>
              (Reassign(bits, slots, kept + extra)[b]
               <==> b in extra || (bits[b] && !(exists k :: need <= k < |slots| && slots[k] == b)))
  {
    var kept := if |slots| < need then slots else slots[..need];
    forall b | 0 <= b < |bits|
      ensures Reassign(bits, slots, kept + extra)[b]
              <==> b in extra || (bits[b] && !(exists k :: need <= k < |slots| && slots[k] == b))
    {
      if b in slots {
        var k :| 0 <= k < |slots| && slots[k] == b;
        if k < need { assert kept[k] == b; }
      }
    }
  }

  // unlink

  /** The directory loses an entry and, if its last block held only this entry, its last pointer and that block's bit;
      the object's inode bit and the bits of its blocks are cleared, and its inode is left as it is. */
  ghost predicate UnlinkedTables(v: Vol, w: Vol, d: int, c: int, slots: seq<int>, freed: seq<int>) {
    && 0 <= d < |v.inodes| && 0 <= c < |v.ibits| && |w.dbits| == |v.dbits|
    && 32 <= v.inodes[d].size <= 122880
    && var parent, last := v.inodes[d], (v.inodes[d].size - 32) / 4096;
       var emptied := (parent.size - 32) % 4096 == 0;
    && (emptied ==> last < 30 && last < |slots|)
    && w.ibits == v.ibits[c := false]
    && w.inodes ==
       v.inodes[d := Inode(parent.typ, parent.size - 32,
                           if emptied then parent.direct[last := 0xFFFF_FFFF] else parent.direct)]
    && (forall b :: 0 <= b < |v.dbits| ==>
          (w.dbits[b] <==> v.dbits[b] && b !in freed && !(emptied && b == slots[last])))
  }

  lemma ShrunkTable(v: Vol, n: int, e: nat)
    requires Sound(v) && IsDir(v, n) && e < v.inodes[n].size / 32 - 2
    ensures var w, inode := LoseEntry(v, n, e), v.inodes[n];
            && 96 <= inode.size <= 122880 && inode.size % 32 == 0 && |SlotsAt(v, n)| == NumBlocks(inode.size)
            && w.ibits == v.ibits && w.inodes == v.inodes[n := ShrunkInode(inode)]
            && w.dbits == Reassign(v.dbits, SlotsAt(v, n), SlotsAt(v, n)[..NumBlocks(inode.size - 32)])
  {
    hide Owns, GoodObjs, GoodDir, MayHold, Entries, RemoveEntry, ShrunkInode, PutBlocks, Reassign, NodeOf, ObjAt;
    DirObj(v, n);
    ShrunkInodeFits(v, n);
    LoseEntryShape(n, ObjAt(v, n), e + 2, v.inodes[n]);
    SlotsAtIs(v, n);
    ShrunkSlots(v, v.inodes[n]);
  }

  lemma ShrunkInodeIs(inode: Inode)
    requires 96 <= inode.size <= 122880 && inode.size % 32 == 0
    ensures var last, emptied := (inode.size - 32) / 4096, (inode.size - 32) % 4096 == 0;
            && 0 <= last < 30
            && NumBlocks(inode.size) == last + 1
            && NumBlocks(inode.size - 32) == (if emptied then last else last + 1)
            && ShrunkInode(inode) == Inode(inode.typ, inode.size - 32,
                                           if emptied then inode.direct[last := 0xFFFF_FFFF] else inode.direct)
  {
  }

  /** The bits that are left when a directory loses its last block or none, and then an object goes. */
  lemma BitsLeft(bits: seq<bool>, slots: seq<int>, kept: nat, freed: seq<int>)
    requires Distinct(slots) && kept <= |slots| <= kept + 1
    requires forall k :: 0 <= k < |slots| ==> 0 <= slots[k] < |bits| && bits[slots[k]]
    ensures var after := Reassign(Reassign(bits, slots, slots[..kept]), freed, []);
            forall b :: 0 <= b < |bits| ==>
              (after[b] <==> bits[b] && b !in freed && !(kept < |slots| && b == slots[kept]))
  {
    forall b | 0 <= b < |bits|
      ensures Reassign(bits, slots, slots[..kept])[b] <==> bits[b] && !(kept < |slots| && b == slots[kept])
    {
      if b in slots {
        var k :| 0 <= k < |slots| && slots[k] == b;
        if k < kept { assert slots[..kept][k] == b; }
      }
    }
  }

  lemma RemovedTables(v: Vol, d: int, e: int)
    requires Consistent(v) && InDirectory(v, d, e)
    ensures d in Abs(v) && Abs(v)[d].DirNode? && e < |Abs(v)[d].entries|
    ensures var c := Abs(v)[d].entries[e].inum;
            UnlinkedTables(v, RemoveObject(v, d, e), d, c, SlotsAt(v, d), SlotsAt(v, c))
  {
    hide Owns, GoodObjs, Tree, Abs, LoseEntry, Reassign, ShrunkInode, SlotsAt, GoodDir, ObjAt, NodeOf;
    DirObj(v, d);
    EntryTarget(v, d, e);
    LoseEntryAbs(v, d, e);
    var c := Abs(v)[d].entries[e].inum;
    var v1 := LoseEntry(v, d, e);
    AbsAt(v1, c);
    ShrunkTable(v, d, e);
    ShrunkInodeIs(v.inodes[d]);
    SlotsInRange(v, d);
    SameSlots(v, v1, c);
    BitsLeft(v.dbits, SlotsAt(v, d), NumBlocks(v.inodes[d].size - 32), SlotsAt(v, c));
  }

  lemma UnlinkTables(v: Vol, d: int, name: Name)
    requires Consistent(v) && Unlink(v, d, name).ret >= 0
    ensures UnlinkedTables(v, Unlink(v, d, name).vol, d, Lookup(Abs(v), d, name), SlotsAt(v, d),
                           SlotsAt(v, Lookup(Abs(v), d, name)))
  {
    hide Owns, GoodObjs, Tree, Abs, Find, RemoveObject, SlotsAt, GoodDir, ObjAt, NodeOf, UnlinkedTables;
    DirObj(v, d);
    RemovedTables(v, d, Find(Abs(v)[d].entries, name));
  }

  lemma SameSlots(v: Vol, w: Vol, c: int)
    requires Owned(v) && Owned(w) && Live(v, c) && Live(w, c) && w.inodes[c] == v.inodes[c] && w.super == v.super
    ensures SlotsAt(w, c) == SlotsAt(v, c)
  {
    hide Owns;
  }
}
