/** The volume as a store of objects: every allocated inode holds a type, a size and a list of blocks
    of its own.  `Owned` is the storage half of consistency: bitmap bits and live block pointers
    correspond one to one. */
module Storage {
  import opened Ufs
  import opened Volume

  datatype Obj = Obj(typ: int, size: int, blocks: seq<Block>)

  // Slot `slot` of inode `inum`.
  datatype Loc = Loc(inum: int, slot: int)

  ghost predicate Live(v: Vol, n: int)
    requires WfVol(v)
  {
    0 <= n < v.super.numInodes && v.ibits[n]
  }

  /** The type is known and the size can be mapped by the direct pointers. */
  ghost predicate GoodInode(inode: Inode) {
    (inode.typ == UFS_DIRECTORY || inode.typ == UFS_REGULAR_FILE) && 0 <= inode.size <= 122880
  }

  /** The data block numbers, relative to the data region, of the live slots of an inode. */
  ghost function Slots(v: Vol, inode: Inode): (slots: seq<int>)
    requires GoodInode(inode)
    ensures |slots| == NumBlocks(inode.size) <= 30
    ensures forall k :: 0 <= k < |slots| ==> slots[k] == inode.direct[k] - v.super.dataRegionAddr
  {
    seq(NumBlocks(inode.size), k requires 0 <= k < NumBlocks(inode.size) => inode.direct[k] - v.super.dataRegionAddr)
  }

  /** Live slot `k` of inode `n` points at a set data block that records it as its owner. */
  ghost predicate PointsAt(v: Vol, own: seq<Loc>, n: int, k: int)
    requires WfVol(v) && |own| == v.super.numData
    requires Live(v, n) && GoodInode(v.inodes[n]) && 0 <= k < NumBlocks(v.inodes[n].size)
  {
    var b := Slots(v, v.inodes[n])[k];
    0 <= b < v.super.numData && v.dbits[b] && own[b] == Loc(n, k)
  }

  /** The recorded owner of block `b` is a live slot that points at it. */
  ghost predicate Backed(v: Vol, own: seq<Loc>, b: int)
    requires WfVol(v) && |own| == v.super.numData
    requires forall n :: Live(v, n) ==> GoodInode(v.inodes[n])
  {
    && 0 <= b < v.super.numData
    && var n, k := own[b].inum, own[b].slot;
    && Live(v, n) && 0 <= k < NumBlocks(v.inodes[n].size)
    && Slots(v, v.inodes[n])[k] == b
  }

  ghost predicate Owns(v: Vol, own: seq<Loc>)
    requires WfVol(v)
  {
    && |own| == v.super.numData
    && (forall n :: v.super.numInodes <= n < |v.ibits| ==> !v.ibits[n])
    && (forall n :: Live(v, n) ==> GoodInode(v.inodes[n]))
    && (forall n, k :: Live(v, n) && 0 <= k < NumBlocks(v.inodes[n].size) ==> PointsAt(v, own, n, k))
    && (forall b :: 0 <= b < |v.dbits| && v.dbits[b] ==> Backed(v, own, b))
  }

  ghost predicate Owned(v: Vol) {
    WfVol(v) && exists own :: Owns(v, own)
  }

  /** The data block numbers of inode `n`, none if it is not allocated. */
  ghost function SlotsAt(v: Vol, n: int): (slots: seq<int>)
    requires Owned(v)
  {
    if Live(v, n) then Slots(v, v.inodes[n]) else []
  }

  ghost predicate InRange(v: Vol, slots: seq<int>) {
    forall k :: 0 <= k < |slots| ==> 0 <= slots[k] < |v.data|
  }

  ghost predicate Distinct(slots: seq<int>) {
    forall k, l :: 0 <= k < l < |slots| ==> slots[k] != slots[l]
  }

  lemma SlotsInRange(v: Vol, n: int)
    requires Owned(v)
    ensures InRange(v, SlotsAt(v, n)) && Distinct(SlotsAt(v, n))
    ensures forall k :: 0 <= k < |SlotsAt(v, n)| ==> v.dbits[SlotsAt(v, n)[k]]
  {
    var own :| Owns(v, own);
    if Live(v, n) {
      var slots := SlotsAt(v, n);
      forall k | 0 <= k < |slots|
        ensures 0 <= slots[k] < |v.data| && v.dbits[slots[k]] && own[slots[k]] == Loc(n, k)
      {
        assert PointsAt(v, own, n, k);
      }
    }
  }

  lemma SlotsDisjoint(v: Vol, n: int, m: int)
    requires Owned(v) && n != m
    ensures forall k :: 0 <= k < |SlotsAt(v, n)| ==> SlotsAt(v, n)[k] !in SlotsAt(v, m)
  {
    var own :| Owns(v, own);
    if Live(v, n) && Live(v, m) {
      forall k, l | 0 <= k < |SlotsAt(v, n)| && 0 <= l < |SlotsAt(v, m)|
        ensures SlotsAt(v, n)[k] != SlotsAt(v, m)[l]
      {
        assert PointsAt(v, own, n, k) && PointsAt(v, own, m, l);
      }
    }
  }

  ghost function BlocksAt(v: Vol, slots: seq<int>): (blocks: seq<Block>)
    requires InRange(v, slots)
    ensures |blocks| == |slots|
    ensures forall k :: 0 <= k < |slots| ==> blocks[k] == v.data[slots[k]]
  {
    seq(|slots|, k requires 0 <= k < |slots| => v.data[slots[k]])
  }

  ghost function ObjAt(v: Vol, n: int): Obj
    requires Owned(v) && Live(v, n)
  {
    SlotsInRange(v, n);
    Obj(v.inodes[n].typ, v.inodes[n].size, BlocksAt(v, SlotsAt(v, n)))
  }

  /** Block `k` of an object, by way of its live slots. */
  lemma SlotBlock(v: Vol, n: int, k: int)
    requires Owned(v) && Live(v, n) && 0 <= k < |SlotsAt(v, n)|
    ensures 0 <= SlotsAt(v, n)[k] < |v.data| && |ObjAt(v, n).blocks| == |SlotsAt(v, n)|
    ensures ObjAt(v, n).blocks[k] == v.data[SlotsAt(v, n)[k]]
  {
    hide Owns, SlotsAt;
    SlotsInRange(v, n);
  }

  lemma SlotsAtIs(v: Vol, n: int)
    requires Owned(v) && Live(v, n)
    ensures GoodInode(v.inodes[n]) && SlotsAt(v, n) == Slots(v, v.inodes[n])
            && |SlotsAt(v, n)| == NumBlocks(v.inodes[n].size)
  {
    hide Slots;
  }

  /** Live slot `k` is where pointer `k` points. */
  lemma SlotPointer(v: Vol, n: int, k: int)
    requires Owned(v) && Live(v, n) && GoodInode(v.inodes[n]) && 0 <= k < NumBlocks(v.inodes[n].size)
    ensures |SlotsAt(v, n)| == NumBlocks(v.inodes[n].size) <= 30
    ensures SlotsAt(v, n)[k] == v.inodes[n].direct[k] - v.super.dataRegionAddr
  {
    hide Owns;
  }

  ghost function Store(v: Vol): map<int, Obj>
    requires Owned(v)
  {
    map n | 0 <= n < v.super.numInodes && Live(v, n) :: ObjAt(v, n)
  }

  /** `data` after the blocks are written to the slots, in order. */
  ghost function PutBlocks(data: seq<Block>, slots: seq<int>, blocks: seq<Block>): (data': seq<Block>)
    requires |slots| == |blocks|
    requires forall k :: 0 <= k < |slots| ==> 0 <= slots[k] < |data|
    ensures |data'| == |data|
  {
    if slots == [] then data
    else
      var last := |slots| - 1;
      PutBlocks(data, slots[..last], blocks[..last])[slots[last] := blocks[last]]
  }

  lemma {:induction false} PutBlocksAt(data: seq<Block>, slots: seq<int>, blocks: seq<Block>)
    requires |slots| == |blocks| && Distinct(slots)
    requires forall k :: 0 <= k < |slots| ==> 0 <= slots[k] < |data|
    ensures forall k :: 0 <= k < |slots| ==> PutBlocks(data, slots, blocks)[slots[k]] == blocks[k]
    ensures forall b :: 0 <= b < |data| && b !in slots ==> PutBlocks(data, slots, blocks)[b] == data[b]
  {
    if slots != [] {
      var last := |slots| - 1;
      PutBlocksAt(data, slots[..last], blocks[..last]);
    }
  }

  /** Whether `inode` may become inode `n`: its slots are distinct and each is free or already `n`'s. */
  ghost predicate MayHold(v: Vol, n: int, inode: Inode)
    requires Owned(v)
  {
    && 0 <= n < v.super.numInodes
    && GoodInode(inode)
    && var slots := Slots(v, inode);
    && InRange(v, slots) && Distinct(slots)
    && forall k :: 0 <= k < |slots| ==> slots[k] in SlotsAt(v, n) || !v.dbits[slots[k]]
  }

  lemma MayHoldMore(v: Vol, n: int, inode: Inode, d: int)
    requires Owned(v) && 0 <= n < v.super.numInodes && GoodInode(inode)
    requires 0 <= d < v.super.numData && !v.dbits[d]
    requires Slots(v, inode) == SlotsAt(v, n) + [d]
    ensures MayHold(v, n, inode)
  {
    hide Owns;
    SlotsInRange(v, n);
  }

  lemma MayHoldFewer(v: Vol, n: int, inode: Inode, count: nat)
    requires Owned(v) && 0 <= n < v.super.numInodes && GoodInode(inode)
    requires count <= |SlotsAt(v, n)|
    requires Slots(v, inode) == SlotsAt(v, n)[..count]
    ensures MayHold(v, n, inode)
  {
    hide Owns;
    SlotsInRange(v, n);
  }

  ghost function Reassign(bits: seq<bool>, old': seq<int>, new': seq<int>): (r: seq<bool>)
    ensures |r| == |bits|
  {
    seq(|bits|, b requires 0 <= b < |bits| => b in new' || (bits[b] && b !in old'))
  }

  /** Inode `n` becomes `inode` holding `blocks`: the slots it loses are freed, those it gains are taken. */
  ghost function SetObj(v: Vol, n: int, inode: Inode, blocks: seq<Block>): (v': Vol)
    requires Owned(v) && MayHold(v, n, inode) && |blocks| == NumBlocks(inode.size)
    ensures WfVol(v') && v'.super == v.super
  {
    v.(ibits := v.ibits[n := true],
       inodes := v.inodes[n := inode],
       dbits := Reassign(v.dbits, SlotsAt(v, n), Slots(v, inode)),
       data := PutBlocks(v.data, Slots(v, inode), blocks))
  }

  /** Inode `n` and all its blocks are freed; the inode itself is left as it is. */
  ghost function DropObj(v: Vol, n: int): (v': Vol)
    requires Owned(v) && Live(v, n)
    ensures WfVol(v') && v'.super == v.super
  {
    v.(ibits := v.ibits[n := false], dbits := Reassign(v.dbits, SlotsAt(v, n), []))
  }

  ghost function NewOwners(own: seq<Loc>, slots: seq<int>, n: int): (r: seq<Loc>)
    ensures |r| == |own|
  {
    seq(|own|, b requires 0 <= b < |own| => if b in slots then Loc(n, IndexOf(slots, b)) else own[b])
  }

  ghost function IndexOf(slots: seq<int>, b: int): (k: int)
    requires b in slots
    ensures 0 <= k < |slots| && slots[k] == b
  {
    var k :| 0 <= k < |slots| && slots[k] == b; k
  }

  lemma SetObjPoints(v: Vol, n: int, inode: Inode, blocks: seq<Block>, own: seq<Loc>, m: int, k: int)
    requires Owned(v) && MayHold(v, n, inode) && |blocks| == NumBlocks(inode.size) && Owns(v, own)
    requires var v' := SetObj(v, n, inode, blocks);
             Live(v', m) && 0 <= k < NumBlocks(v'.inodes[m].size)
    ensures PointsAt(SetObj(v, n, inode, blocks), NewOwners(own, Slots(v, inode), n), m, k)
  {
    var v' := SetObj(v, n, inode, blocks);
    var slots := Slots(v, inode);
    if m == n {
      assert Slots(v', inode)[k] == slots[k];
    } else {
      assert Live(v, m);
      assert PointsAt(v, own, m, k);
      SlotsDisjoint(v, m, n);
      assert SlotsAt(v, m)[k] !in SlotsAt(v, n);
      assert Slots(v', v'.inodes[m])[k] == SlotsAt(v, m)[k];
    }
  }

  lemma SetObjBacked(v: Vol, n: int, inode: Inode, blocks: seq<Block>, own: seq<Loc>, b: int)
    requires Owned(v) && MayHold(v, n, inode) && |blocks| == NumBlocks(inode.size) && Owns(v, own)
    requires var v' := SetObj(v, n, inode, blocks);
             0 <= b < |v'.dbits| && v'.dbits[b]
    ensures Backed(SetObj(v, n, inode, blocks), NewOwners(own, Slots(v, inode), n), b)
  {
    var v' := SetObj(v, n, inode, blocks);
    var slots := Slots(v, inode);
    if b in slots {
      var k := IndexOf(slots, b);
      assert Slots(v', v'.inodes[n])[k] == b;
    } else {
      assert Backed(v, own, b);
      var m, k := own[b].inum, own[b].slot;
      assert Slots(v', v.inodes[m])[k] == Slots(v, v.inodes[m])[k];
    }
  }

  lemma SetObjOwns(v: Vol, n: int, inode: Inode, blocks: seq<Block>, own: seq<Loc>)
    requires Owned(v) && MayHold(v, n, inode) && |blocks| == NumBlocks(inode.size)
    requires Owns(v, own)
    ensures Owns(SetObj(v, n, inode, blocks), NewOwners(own, Slots(v, inode), n))
  {
    hide PointsAt, Backed;
    var v' := SetObj(v, n, inode, blocks);
    var own' := NewOwners(own, Slots(v, inode), n);
    forall m, k | Live(v', m) && 0 <= k < NumBlocks(v'.inodes[m].size)
      ensures PointsAt(v', own', m, k)
    {
      SetObjPoints(v, n, inode, blocks, own, m, k);
    }
    forall b | 0 <= b < |v'.dbits| && v'.dbits[b]
      ensures Backed(v', own', b)
    {
      SetObjBacked(v, n, inode, blocks, own, b);
    }
  }

  ghost predicate SameAt<T>(s: map<int, T>, t: map<int, T>, m: int) {
    (m in s <==> m in t) && (m in s ==> s[m] == t[m])
  }

  lemma SameMap<T>(s: map<int, T>, t: map<int, T>)
    requires forall m :: SameAt(s, t, m)
    ensures s == t
  {
    forall m: int
      ensures (m in s <==> m in t) && (m in s ==> s[m] == t[m])
    {
      assert SameAt(s, t, m);
    }
  }

  lemma StoreMember(v: Vol, n: int)
    requires Owned(v)
    ensures n in Store(v) <==> Live(v, n)
    ensures n in Store(v) ==> Store(v)[n] == ObjAt(v, n)
  {
  }

  lemma SetObjOwned(v: Vol, n: int, inode: Inode, blocks: seq<Block>)
    requires Owned(v) && MayHold(v, n, inode) && |blocks| == NumBlocks(inode.size)
    ensures Owned(SetObj(v, n, inode, blocks))
  {
    var own :| Owns(v, own);
    SetObjOwns(v, n, inode, blocks, own);
  }

  lemma SetObjMember(v: Vol, n: int, inode: Inode, blocks: seq<Block>, m: int)
    requires Owned(v) && MayHold(v, n, inode) && |blocks| == NumBlocks(inode.size)
    requires Owned(SetObj(v, n, inode, blocks))
    ensures SameAt(Store(SetObj(v, n, inode, blocks)), Store(v)[n := Obj(inode.typ, inode.size, blocks)], m)
  {
    var v' := SetObj(v, n, inode, blocks);
    StoreMember(v, m);
    StoreMember(v', m);
    if m == n {
      SetObjSelf(v, n, inode, blocks);
    } else if Live(v, m) {
      SetObjFrame(v, n, inode, blocks, m);
    }
  }

  lemma SetObjStore(v: Vol, n: int, inode: Inode, blocks: seq<Block>)
    requires Owned(v) && MayHold(v, n, inode) && |blocks| == NumBlocks(inode.size)
    ensures var v' := SetObj(v, n, inode, blocks);
            Owned(v') && Store(v') == Store(v)[n := Obj(inode.typ, inode.size, blocks)]
  {
    SetObjOwned(v, n, inode, blocks);
    var s := Store(SetObj(v, n, inode, blocks));
    var t := Store(v)[n := Obj(inode.typ, inode.size, blocks)];
    forall m: int
      ensures SameAt(s, t, m)
    {
      SetObjMember(v, n, inode, blocks, m);
    }
    SameMap(s, t);
  }

  lemma SetObjSelf(v: Vol, n: int, inode: Inode, blocks: seq<Block>)
    requires Owned(v) && MayHold(v, n, inode) && |blocks| == NumBlocks(inode.size)
    requires Owned(SetObj(v, n, inode, blocks))
    ensures Live(SetObj(v, n, inode, blocks), n)
    ensures ObjAt(SetObj(v, n, inode, blocks), n) == Obj(inode.typ, inode.size, blocks)
  {
    var v' := SetObj(v, n, inode, blocks);
    var slots := Slots(v, inode);
    PutBlocksAt(v.data, slots, blocks);
    SlotsInRange(v', n);
    assert SlotsAt(v', n) == slots;
    assert BlocksAt(v', slots) == blocks;
  }

  lemma SetObjSlots(v: Vol, n: int, inode: Inode, blocks: seq<Block>)
    requires Owned(v) && MayHold(v, n, inode) && |blocks| == NumBlocks(inode.size)
    requires Owned(SetObj(v, n, inode, blocks))
    ensures SlotsAt(SetObj(v, n, inode, blocks), n) == Slots(v, inode)
  {
  }

  lemma SetObjFrame(v: Vol, n: int, inode: Inode, blocks: seq<Block>, m: int)
    requires Owned(v) && MayHold(v, n, inode) && |blocks| == NumBlocks(inode.size)
    requires m != n && Live(v, m)
    requires Owned(SetObj(v, n, inode, blocks)) && Live(SetObj(v, n, inode, blocks), m)
    ensures ObjAt(SetObj(v, n, inode, blocks), m) == ObjAt(v, m)
  {
    var v' := SetObj(v, n, inode, blocks);
    var slots := Slots(v, inode);
    SlotsInRange(v, m);
    SlotsInRange(v', m);
    SlotsDisjoint(v, m, n);
    PutBlocksAt(v.data, slots, blocks);
    assert SlotsAt(v', m) == SlotsAt(v, m);
    forall k | 0 <= k < |SlotsAt(v, m)|
      ensures v'.data[SlotsAt(v, m)[k]] == v.data[SlotsAt(v, m)[k]]
    {
      assert SlotsAt(v, m)[k] !in slots;
    }
    assert BlocksAt(v', SlotsAt(v', m)) == BlocksAt(v, SlotsAt(v, m));
  }

  lemma DropObjMember(v: Vol, n: int, m: int)
    requires Owned(v) && Live(v, n) && Owned(DropObj(v, n))
    ensures SameAt(Store(DropObj(v, n)), Store(v) - {n}, m)
  {
    StoreMember(v, m);
    StoreMember(DropObj(v, n), m);
    if m != n && Live(v, m) {
      DropObjFrame(v, n, m);
    }
  }

  lemma DropObjOwned(v: Vol, n: int)
    requires Owned(v) && Live(v, n)
    ensures Owned(DropObj(v, n))
  {
    var own :| Owns(v, own);
    DropObjOwns(v, n, own);
  }

  lemma DropObjStore(v: Vol, n: int)
    requires Owned(v) && Live(v, n)
    ensures var v' := DropObj(v, n);
            Owned(v') && Store(v') == Store(v) - {n}
  {
    DropObjOwned(v, n);
    var s, t := Store(DropObj(v, n)), Store(v) - {n};
    forall m: int
      ensures SameAt(s, t, m)
    {
      DropObjMember(v, n, m);
    }
    SameMap(s, t);
  }

  lemma DropObjFrame(v: Vol, n: int, m: int)
    requires Owned(v) && Live(v, n) && Owned(DropObj(v, n))
    requires m != n && Live(v, m)
    ensures Live(DropObj(v, n), m) && ObjAt(DropObj(v, n), m) == ObjAt(v, m)
  {
    var v' := DropObj(v, n);
    SlotsInRange(v, m);
    SlotsInRange(v', m);
    assert SlotsAt(v', m) == SlotsAt(v, m);
  }

  lemma DropObjOwns(v: Vol, n: int, own: seq<Loc>)
    requires Owned(v) && Live(v, n) && Owns(v, own)
    ensures Owns(DropObj(v, n), own)
  {
    var v' := DropObj(v, n);
    forall m, k | Live(v', m) && 0 <= k < NumBlocks(v'.inodes[m].size)
      ensures PointsAt(v', own, m, k)
    {
      assert PointsAt(v, own, m, k);
      SlotsDisjoint(v, m, n);
      assert SlotsAt(v, m)[k] !in SlotsAt(v, n);
      assert Slots(v', v'.inodes[m])[k] == SlotsAt(v, m)[k];
    }
    forall b | 0 <= b < |v'.dbits| && v'.dbits[b]
      ensures Backed(v', own, b)
    {
      assert Backed(v, own, b);
      var m, k := own[b].inum, own[b].slot;
      assert SlotsAt(v, m)[k] == b;
      assert Slots(v', v.inodes[m])[k] == Slots(v, v.inodes[m])[k];
    }
  }
}
