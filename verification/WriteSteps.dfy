/** The single writes that `write` makes add up to its function on volumes. */
module WriteSteps {
  import opened Ufs
  import opened Bits
  import opened Volume
  import opened Storage
  import opened Objects
  import opened Consistency
  import opened WriteSpec

  lemma {:induction false} TakeClearPrefix(bits: seq<bool>, count: nat, more: nat)
    requires count <= more
    ensures TakeClear(bits, more)[..count] == TakeClear(bits, count)
  {
    if count < more {
      TakeClearPrefix(bits, count, more - 1);
      assert TakeClear(bits, more)[..count] == TakeClear(bits, more - 1)[..count];
    } else {
      assert TakeClear(bits, more)[..count] == TakeClear(bits, more);
    }
  }

  /** The bitmap after `count` bits were taken, and the next bit that the allocator will find. */
  ghost function AfterTaking(bits: seq<bool>, count: nat): (r: seq<bool>)
    ensures |r| == |bits|
  {
    Reassign(bits, [], TakeClear(bits, count))
  }

  lemma TakeNext(bits: seq<bool>, count: nat)
    ensures TakeClear(bits, count + 1) == TakeClear(bits, count) + [FirstClear(AfterTaking(bits, count), 0)]
    ensures var d := FirstClear(AfterTaking(bits, count), 0);
            d < |bits| ==> AfterTaking(bits, count + 1) == AfterTaking(bits, count)[d := true]
  {
  }

  lemma TakeNone(bits: seq<bool>)
    ensures AfterTaking(bits, 0) == bits
  {
  }

  /** If bit number `count` cannot be had, neither can a longer run of bits. */
  lemma TakeFails(bits: seq<bool>, count: nat, total: nat, limit: int)
    requires count < total
    requires FirstClear(AfterTaking(bits, count), 0) >= limit
    ensures !AllBelow(TakeClear(bits, total), limit)
  {
    TakeClearPrefix(bits, count + 1, total);
    assert TakeClear(bits, total)[count] == TakeClear(bits, total)[..count + 1][count];
  }

  /** The pointers while blocks are being added: those up to block `x` are set. */
  ghost function GrownTo(direct: Pointers, now: int, x: int, taken: seq<int>, base: int): Pointers
    requires 0 <= now <= x <= 30 && |taken| == x - now
  {
    direct[..now] + seq(x - now, k requires 0 <= k < x - now => base + taken[k]) + direct[x..]
  }

  lemma GrowStep(direct: Pointers, now: int, x: int, taken: seq<int>, d: int, base: int)
    requires 0 <= now <= x < 30 && |taken| == x - now
    ensures GrownTo(direct, now, x, taken, base)[x := base + d] == GrownTo(direct, now, x + 1, taken + [d], base)
  {
  }

  lemma GrowStart(direct: Pointers, now: int, base: int)
    requires 0 <= now <= 30
    ensures GrownTo(direct, now, now, [], base) == direct
  {
  }

  /** The pointers while blocks are being freed: those from `need` up to `x` are cleared. */
  ghost function ShrunkTo(direct: Pointers, need: int, x: int): Pointers
    requires 0 <= need <= x <= 30
  {
    direct[..need] + seq(x - need, _ => NO_BLOCK) + direct[x..]
  }

  lemma ShrinkStep(direct: Pointers, need: int, x: int)
    requires 0 <= need <= x < 30
    ensures ShrunkTo(direct, need, x)[x := NO_BLOCK] == ShrunkTo(direct, need, x + 1)
    ensures ShrunkTo(direct, need, x)[x] == direct[x]
  {
  }

  lemma ShrinkStart(direct: Pointers, need: int)
    requires 0 <= need <= 30
    ensures ShrunkTo(direct, need, need) == direct
  {
  }

  lemma FreeStep(bits: seq<bool>, slots: seq<int>, lo: int, x: int)
    requires 0 <= lo <= x < |slots| && 0 <= slots[x] < |bits|
    ensures Reassign(bits, slots[lo..x], [])[slots[x] := false] == Reassign(bits, slots[lo..x + 1], [])
  {
    assert slots[lo..x + 1] == slots[lo..x] + [slots[x]];
  }

  lemma FreeStart(bits: seq<bool>, slots: seq<int>, lo: int)
    requires 0 <= lo <= |slots|
    ensures Reassign(bits, slots[lo..lo], []) == bits
  {
  }

  /** Keeping all old blocks and adding some, or keeping the first few: the bits that change. */
  lemma ReassignGrown(bits: seq<bool>, slots: seq<int>, extra: seq<int>)
    requires forall k :: 0 <= k < |slots| ==> 0 <= slots[k] < |bits| && bits[slots[k]]
    ensures Reassign(bits, slots, slots + extra) == Reassign(bits, [], extra)
  {
    forall b | 0 <= b < |bits|
      ensures Reassign(bits, slots, slots + extra)[b] == Reassign(bits, [], extra)[b]
    {
      assert b in slots + extra <==> b in slots || b in extra;
    }
  }

  lemma ReassignShrunk(bits: seq<bool>, slots: seq<int>, count: nat)
    requires forall k :: 0 <= k < |slots| ==> 0 <= slots[k] < |bits| && bits[slots[k]]
    requires Distinct(slots) && count <= |slots|
    ensures Reassign(bits, slots, slots[..count]) == Reassign(bits, slots[count..], [])
  {
    forall b | 0 <= b < |bits|
      ensures Reassign(bits, slots, slots[..count])[b] == Reassign(bits, slots[count..], [])[b]
    {
      assert slots == slots[..count] + slots[count..];
      if b in slots {
        var k := IndexOf(slots, b);
        assert k < count ==> b == slots[..count][k];
        assert k >= count ==> b == slots[count..][k - count];
      }
    }
  }

  /** The bitmap after a write. */
  ghost function WrittenBits(v: Vol, n: int, size: nat): seq<bool>
    requires Sound(v) && IsFile(v, n) && NumBlocks(size) <= 30
  {
    LiveNode(v, n);
    if NumBlocks(v.inodes[n].size) < NumBlocks(size)
        then AfterTaking(v.dbits, NumBlocks(size) - NumBlocks(v.inodes[n].size))
    else Reassign(v.dbits, SlotsAt(v, n)[NumBlocks(size)..], [])
  }

  lemma WrittenBitsAre(v: Vol, n: int, size: nat)
    requires Sound(v) && IsFile(v, n) && NumBlocks(size) <= 30
    ensures GoodInode(WrittenInode(v, n, size))
    ensures Reassign(v.dbits, SlotsAt(v, n), Slots(v, WrittenInode(v, n, size))) == WrittenBits(v, n, size)
  {
    hide Owns, GoodObjs, TakeClear, Reassign, WrittenInode;
    WrittenSlots(v, n, size);
    SlotsInRange(v, n);
    LiveNode(v, n);
    var need := NumBlocks(size);
    if NumBlocks(v.inodes[n].size) < need {
      ReassignGrown(v.dbits, SlotsAt(v, n), Extra(v, n, size));
    } else {
      assert SlotsAt(v, n)[..need] + Extra(v, n, size) == SlotsAt(v, n)[..need];
      ReassignShrunk(v.dbits, SlotsAt(v, n), need);
    }
  }

  lemma WrittenFields(v: Vol, n: int, buf: seq<bv8>, leftover: Page)
    requires Sound(v) && IsFile(v, n) && NumBlocks(|buf|) <= 30 && CanWrite(v, n, |buf|)
    ensures MayHold(v, n, WrittenInode(v, n, |buf|))
    ensures SetObj(v, n, WrittenInode(v, n, |buf|), FileBlocks(buf, leftover)) == v.(
              inodes := v.inodes[n := WrittenInode(v, n, |buf|)],
              dbits := WrittenBits(v, n, |buf|),
              data := PutBlocks(v.data, Slots(v, WrittenInode(v, n, |buf|)), FileBlocks(buf, leftover)))
  {
    hide Owns, GoodObjs, MayHold, CanWrite, PutBlocks, Reassign, WrittenInode, WrittenBits;
    WrittenInodeFits(v, n, |buf|);
    WrittenBitsAre(v, n, |buf|);
    assert v.ibits[n := true] == v.ibits;
  }

  lemma {:induction false} PutNext(data: seq<Block>, slots: seq<int>, blocks: seq<Block>, x: nat)
    requires |slots| == |blocks| && x < |slots|
    requires forall k :: 0 <= k < |slots| ==> 0 <= slots[k] < |data|
    ensures PutBlocks(data, slots[..x + 1], blocks[..x + 1])
            == PutBlocks(data, slots[..x], blocks[..x])[slots[x] := blocks[x]]
  {
    assert slots[..x + 1][..x] == slots[..x] && blocks[..x + 1][..x] == blocks[..x];
  }

  lemma PutNone(data: seq<Block>, slots: seq<int>, blocks: seq<Block>)
    requires |slots| == |blocks|
    ensures PutBlocks(data, slots[..0], blocks[..0]) == data
  {
  }

  lemma TakeEmpty(bits: seq<bool>)
    ensures TakeClear(bits, 0) == []
  {
  }
}
