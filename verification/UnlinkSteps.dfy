/** The single writes that `unlink` makes add up to its function on volumes. */
module UnlinkSteps {
  import opened Ufs
  import opened Volume
  import opened Storage
  import opened Objects
  import opened Namespace
  import opened Consistency
  import opened CreateSpec
  import opened UnlinkSpec
  import opened LookupScan
  import opened WriteSteps

  /** The bitmap after a directory gave back its last block, if it did. */
  ghost function ShrunkBits(v: Vol, n: int): seq<bool>
    requires Sound(v) && IsDir(v, n)
  {
    DirObj(v, n);
    SlotsInRange(v, n);
    var left := NumBlocks(v.inodes[n].size - 32);
    if left < NumBlocks(v.inodes[n].size) then v.dbits[SlotsAt(v, n)[left] := false] else v.dbits
  }

  lemma ShrinkByOne(size: int)
    requires 32 <= size
    ensures 0 <= NumBlocks(size - 32) && NumBlocks(size) - 1 <= NumBlocks(size - 32) <= NumBlocks(size)
  {
  }

  lemma ReassignLast(bits: seq<bool>, slots: seq<int>, left: nat)
    requires forall k :: 0 <= k < |slots| ==> 0 <= slots[k] < |bits| && bits[slots[k]]
    requires Distinct(slots) && |slots| - 1 <= left <= |slots|
    ensures Reassign(bits, slots, slots[..left]) == if left < |slots| then bits[slots[left] := false] else bits
  {
    hide Reassign;
    ReassignShrunk(bits, slots, left);
    FreeStart(bits, slots, left);
    if left < |slots| {
      FreeStep(bits, slots, left, left);
      assert slots[left..left + 1] == slots[left..];
    } else {
      assert slots[left..left] == slots[left..];
    }
  }

  lemma ShrunkBitsAre(v: Vol, n: int)
    requires Sound(v) && IsDir(v, n)
    ensures 64 <= v.inodes[n].size && GoodInode(ShrunkInode(v.inodes[n]))
    ensures Reassign(v.dbits, SlotsAt(v, n), Slots(v, ShrunkInode(v.inodes[n]))) == ShrunkBits(v, n)
  {
    hide Owns, GoodObjs, GoodDir, Reassign, ShrunkInode, SlotsAt, Slots, ObjAt, NodeOf, Abs, NumBlocks, Distinct;
    DirObj(v, n);
    SlotsInRange(v, n);
    SlotsAtIs(v, n);
    ShrunkSlots(v, v.inodes[n]);
    ShrinkByOne(v.inodes[n].size);
    ReassignLast(v.dbits, SlotsAt(v, n), NumBlocks(v.inodes[n].size - 32));
  }

  lemma InRangePrefix(v: Vol, slots: seq<int>, count: int)
    requires InRange(v, slots) && 0 <= count <= |slots|
    ensures InRange(v, slots[..count])
  {
  }

  lemma LoseEntryParts(v: Vol, n: int, e: nat)
    requires Sound(v) && InDirectory(v, n, e)
    ensures GoodDir(n, ObjAt(v, n)) && e + 2 < ObjAt(v, n).size / 32 && 64 <= v.inodes[n].size <= 122880
    ensures GoodInode(ShrunkInode(v.inodes[n])) && InRange(v, Slots(v, ShrunkInode(v.inodes[n])))
    ensures Slots(v, ShrunkInode(v.inodes[n])) == SlotsAt(v, n)[..NumBlocks(v.inodes[n].size - 32)]
    ensures |RemoveEntry(n, ObjAt(v, n), e + 2).blocks| == NumBlocks(v.inodes[n].size - 32)
    ensures ObjAt(v, n).size == v.inodes[n].size
  {
    hide Owns, GoodObjs, GoodDir, ShrunkInode, RemoveEntry, InRange, NodeOf, Abs, Entries;
    DirObj(v, n);
    LiveGood(v, n);
    ShrunkSlots(v, v.inodes[n]);
    SlotsInRange(v, n);
    var left := NumBlocks(v.inodes[n].size - 32);
    InRangePrefix(v, SlotsAt(v, n), left);
    RemoveEntrySize(n, ObjAt(v, n), e + 2);
  }

  /** Block `i` of a directory that loses an entry: where it is, and what is written there. */
  lemma WrittenBlock(v: Vol, n: int, e: int, i: int)
    requires Sound(v) && e >= 2 && InDirectory(v, n, e - 2)
    requires GoodDir(n, ObjAt(v, n)) && e < ObjAt(v, n).size / 32 && ObjAt(v, n).size == v.inodes[n].size
    requires 0 <= i < NumBlocks(v.inodes[n].size - 32)
    ensures i < |SlotsAt(v, n)| && 0 <= i < 30 && SlotsAt(v, n)[i] == v.inodes[n].direct[i] - v.super.dataRegionAddr
    ensures 0 <= SlotsAt(v, n)[i] < v.super.numData
    ensures i < |RemoveEntry(n, ObjAt(v, n), e).blocks| && 128 * i + 128 <= |Entries(ObjAt(v, n).blocks)|
    ensures RemoveEntry(n, ObjAt(v, n), e).blocks[i]
            == DirBlock(Squeeze(Entries(ObjAt(v, n).blocks), e, v.inodes[n].size / 32)[128 * i..128 * i + 128])
  {
    hide Owns, GoodObjs, GoodDir, RemoveEntry, SlotsAt, ObjAt, NodeOf, Abs, Entries, Squeeze, NumBlocks;
    DirObj(v, n);
    ShrinkByOne(v.inodes[n].size);
    SlotPointer(v, n, i);
    SlotsInRange(v, n);
    RemoveEntrySize(n, ObjAt(v, n), e);
  }

  lemma LoseEntryFields(v: Vol, n: int, e: nat)
    requires Sound(v) && InDirectory(v, n, e)
    requires GoodDir(n, ObjAt(v, n)) && e + 2 < ObjAt(v, n).size / 32 && 64 <= v.inodes[n].size <= 122880
    requires GoodInode(ShrunkInode(v.inodes[n])) && InRange(v, Slots(v, ShrunkInode(v.inodes[n])))
    requires |RemoveEntry(n, ObjAt(v, n), e + 2).blocks| == NumBlocks(v.inodes[n].size - 32)
    ensures LoseEntry(v, n, e) == v.(
              inodes := v.inodes[n := ShrunkInode(v.inodes[n])],
              dbits := ShrunkBits(v, n),
              data := PutBlocks(v.data, Slots(v, ShrunkInode(v.inodes[n])), RemoveEntry(n, ObjAt(v, n), e + 2).blocks))
  {
    hide Owns, GoodObjs, GoodDir, Reassign, ShrunkBits, MayHold, RemoveEntry, PutBlocks;
    ShrunkInodeFits(v, n);
    ShrunkBitsAre(v, n);
    assert v.ibits[n := true] == v.ibits;
  }

  lemma RemoveEntrySize(n: int, o: Obj, e: int)
    requires GoodDir(n, o) && 2 <= e < o.size / 32
    ensures |RemoveEntry(n, o, e).blocks| == NumBlocks(o.size - 32)
    ensures forall k :: 0 <= k < NumBlocks(o.size - 32) ==>
              128 * k + 128 <= |Entries(o.blocks)|
              && RemoveEntry(n, o, e).blocks[k]
              == DirBlock(Squeeze(Entries(o.blocks), e, o.size / 32)[128 * k..128 * k + 128])
  {
    hide Squeeze, Entries;
    var es := Squeeze(Entries(o.blocks), e, o.size / 32);
    var kept := es[..128 * NumBlocks(o.size - 32)];
    ToBlocksAt(kept);
    forall k | 0 <= k < NumBlocks(o.size - 32)
      ensures kept[128 * k..128 * k + 128] == es[128 * k..128 * k + 128]
    {
    }
  }

  lemma RemovedBlocks(n: int, o: Obj, e: int)
    requires GoodDir(n, o) && 2 <= e < o.size / 32
    ensures |RemoveEntry(n, o, e).blocks| == NumBlocks(o.size - 32) >= 0
  {
    hide RemoveEntry, Entries, Squeeze;
    RemoveEntrySize(n, o, e);
  }

  lemma ToBlocksAt(es: seq<DirEnt>)
    requires |es| % 128 == 0
    ensures forall k :: 0 <= k < |es| / 128 ==>
              128 * k + 128 <= |es| && ToBlocks(es)[k] == DirBlock(es[128 * k..128 * k + 128])
  {
  }

  /** The slots of the object that goes away are not touched by the loss of its entry. */
  lemma LoseEntryKeeps(v: Vol, n: int, e: nat, c: int)
    requires Sound(v) && InDirectory(v, n, e) && c != n && Live(v, c)
    ensures var v1 := LoseEntry(v, n, e);
            Sound(v1) && Live(v1, c) && v1.inodes[c] == v.inodes[c] && SlotsAt(v1, c) == SlotsAt(v, c)
  {
    LoseEntryAbs(v, n, e);
    LoseEntryParts(v, n, e);
    LoseEntryFields(v, n, e);
  }

  ghost predicate NonDot(ent: DirEnt) {
    ent.inum != -1 && ent.name != "." && ent.name != ".."
  }

  ghost predicate OnlyDots(es: seq<DirEnt>, count: int) {
    forall e :: 0 <= e < count && e < |es| ==> !NonDot(es[e])
  }

  lemma OnlyDotsLeft(N: map<int, Node>, n: int, o: Obj)
    requires Tree(N) && GoodDir(n, o) && o.typ == UFS_DIRECTORY && n in N && N[n] == NodeOf(n, o)
    ensures N[n].entries == [] <==> OnlyDots(Entries(o.blocks), o.size / 32)
  {
    EntriesUsed(N, n, o);
    var es := Entries(o.blocks);
    if N[n].entries != [] {
      assert NonDot(es[2]);
    } else {
      assert o.size / 32 == 2;
    }
  }

  /** The scan that looks for an entry other than the dots finds one exactly if there is one. */
  lemma DirectoryEmpty(v: Vol, n: int)
    requires Consistent(v) && IsDir(v, n)
    ensures GoodDir(n, ObjAt(v, n)) && n in Abs(v) && Abs(v)[n].DirNode?
    ensures Abs(v)[n].entries == [] <==> OnlyDots(Entries(ObjAt(v, n).blocks), v.inodes[n].size / 32)
  {
    hide Owns, GoodObjs, Tree, Entries, GoodDir, NodeOf, OnlyDots, Abs;
    DirObj(v, n);
    OnlyDotsLeft(Abs(v), n, ObjAt(v, n));
  }
}
