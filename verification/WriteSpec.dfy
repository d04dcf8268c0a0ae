/** `write` as a function on consistent volumes. */
module WriteSpec {
  import opened Ufs
  import opened Bits
  import opened Volume
  import opened Storage
  import opened Objects
  import opened Namespace
  import opened Consistency
  import opened CreateSpec

  /** The lowest clear bits, one after the other; the length of `bits` stands for "no clear bit left". */
  ghost function TakeClear(bits: seq<bool>, count: nat): (taken: seq<int>)
    ensures |taken| == count
    ensures forall k :: 0 <= k < count ==> 0 <= taken[k] <= |bits|
  {
    if count == 0 then []
    else
      var before := TakeClear(bits, count - 1);
      before + [FirstClear(Reassign(bits, [], before), 0)]
  }

  /** What is taken was clear, and no bit is taken twice. */
  lemma {:induction false} TakeClearFresh(bits: seq<bool>, count: nat)
    requires forall k :: 0 <= k < count ==> TakeClear(bits, count)[k] < |bits|
    ensures Distinct(TakeClear(bits, count))
    ensures forall k :: 0 <= k < count ==> !bits[TakeClear(bits, count)[k]]
  {
    hide Reassign, Distinct;
    if count > 0 {
      var before := TakeClear(bits, count - 1);
      var d := FirstClear(Reassign(bits, [], before), 0);
      assert TakeClear(bits, count) == before + [d];
      assert forall k :: 0 <= k < count - 1 ==> before[k] == TakeClear(bits, count)[k];
      assert d == TakeClear(bits, count)[count - 1];
      TakeClearFresh(bits, count - 1);
      OneMoreFresh(bits, before, d);
    } else {
      NothingTaken(bits);
    }
  }

  lemma NothingTaken(bits: seq<bool>)
    ensures Distinct(TakeClear(bits, 0))
  {
  }

  lemma OneMoreFresh(bits: seq<bool>, before: seq<int>, d: int)
    requires Distinct(before) && forall k :: 0 <= k < |before| ==> 0 <= before[k] < |bits| && !bits[before[k]]
    requires 0 <= d < |bits| && !Reassign(bits, [], before)[d]
    ensures Distinct(before + [d])
    ensures forall k :: 0 <= k < |before + [d]| ==> !bits[(before + [d])[k]]
  {
    var marked := Reassign(bits, [], before);
    assert forall k :: 0 <= k < |before| ==> marked[before[k]];
  }

  /** Every bit below one that is taken was set or is taken earlier. */
  lemma {:induction false} TakeClearLowest(bits: seq<bool>, count: nat, k: nat, b: nat)
    requires k < count && b < TakeClear(bits, count)[k]
    ensures bits[b] || b in TakeClear(bits, count)[..k]
  {
    var before := TakeClear(bits, count - 1);
    if k < count - 1 {
      TakeClearLowest(bits, count - 1, k, b);
      assert TakeClear(bits, count)[..k] == before[..k];
    } else {
      assert Reassign(bits, [], before)[b];
      assert TakeClear(bits, count)[..k] == before;
    }
  }

  ghost predicate IsFile(v: Vol, n: int)
    requires WfVol(v)
  {
    Live(v, n) && v.inodes[n].typ == UFS_REGULAR_FILE
  }

  /** The data blocks a write of `size` bytes adds to file `n`. */
  ghost function Extra(v: Vol, n: int, size: nat): (extra: seq<int>)
    requires Sound(v) && IsFile(v, n)
  {
    var now, need := NumBlocks(v.inodes[n].size), NumBlocks(size);
    TakeClear(v.dbits, if now < need then need - now else 0)
  }

  ghost predicate AllBelow(taken: seq<int>, limit: int) {
    forall k :: 0 <= k < |taken| ==> taken[k] < limit
  }

  /** So many bits can be taken below `limit` exactly if so many are clear. */
  lemma {:induction false} TakeClearFits(bits: seq<bool>, count: nat, limit: nat)
    requires limit <= |bits|
    ensures AllBelow(TakeClear(bits, count), limit) <==> Clear(bits, limit) >= count
    ensures AllBelow(TakeClear(bits, count), limit) ==>
              Clear(Reassign(bits, [], TakeClear(bits, count)), limit) == Clear(bits, limit) - count
  {
    if count == 0 {
      assert Reassign(bits, [], []) == bits;
    } else {
      hide AllBelow, Reassign, Clear;
      TakeClearFits(bits, count - 1, limit);
      var before := TakeClear(bits, count - 1);
      var marked := Reassign(bits, [], before);
      var d := FirstClear(marked, 0);
      OneMoreBelow(before, d, limit);
      FirstClearFits(marked, limit);
      if d < limit {
        OneMoreMarked(bits, before, d);
        ClearSet(marked, d, limit);
      }
    }
  }

  lemma OneMoreBelow(before: seq<int>, d: int, limit: int)
    ensures AllBelow(before + [d], limit) <==> AllBelow(before, limit) && d < limit
  {
    assert (before + [d])[|before|] == d;
    assert forall k :: 0 <= k < |before| ==> (before + [d])[k] == before[k];
  }

  lemma OneMoreMarked(bits: seq<bool>, before: seq<int>, d: nat)
    requires d < |bits|
    ensures Reassign(bits, [], before + [d]) == Reassign(bits, [], before)[d := true]
  {
  }

  ghost predicate CanWrite(v: Vol, n: int, size: nat)
    requires Sound(v) && IsFile(v, n)
  {
    AllBelow(Extra(v, n, size), v.super.numData)
  }

  /** The pointers of a file going from `now` to `need` blocks: those it keeps stay, those of added blocks
      are appended, those of freed blocks become -1. */
  ghost function NewPointers(direct: Pointers, now: int, need: int, extra: seq<int>, base: int): Pointers
    requires 0 <= now <= 30 && 0 <= need <= 30
    requires |extra| == if now < need then need - now else 0
  {
    if now < need then
      direct[..now] + seq(need - now, k requires 0 <= k < need - now => base + extra[k]) + direct[need..]
    else
      direct[..need] + seq(now - need, _ => NO_BLOCK) + direct[now..]
  }

  ghost function WrittenInode(v: Vol, n: int, size: nat): (inode: Inode)
    requires Sound(v) && IsFile(v, n) && NumBlocks(size) <= DIRECT_PTRS
  {
    LiveNode(v, n);
    var inode := v.inodes[n];
    Inode(inode.typ, size,
          NewPointers(inode.direct, NumBlocks(inode.size), NumBlocks(size), Extra(v, n, size), v.super.dataRegionAddr))
  }

  lemma NewPointersSlots(v: Vol, inode: Inode, inode': Inode, extra: seq<int>)
    requires GoodInode(inode) && GoodInode(inode')
    requires |extra| == if NumBlocks(inode.size) < NumBlocks(inode'.size)
             then NumBlocks(inode'.size) - NumBlocks(inode.size) else 0
    requires inode'.direct == NewPointers(inode.direct, NumBlocks(inode.size), NumBlocks(inode'.size), extra,
             v.super.dataRegionAddr)
    ensures NumBlocks(inode.size) < NumBlocks(inode'.size) ==> Slots(v, inode') == Slots(v, inode) + extra
    ensures NumBlocks(inode.size) >= NumBlocks(inode'.size)
            ==> Slots(v, inode') == Slots(v, inode)[..NumBlocks(inode'.size)]
  {
  }

  /** The blocks of a written file: its leading old blocks, then the added ones. */
  lemma WrittenSlots(v: Vol, n: int, size: nat)
    requires Sound(v) && IsFile(v, n) && NumBlocks(size) <= DIRECT_PTRS
    ensures GoodInode(v.inodes[n]) && GoodInode(WrittenInode(v, n, size))
    ensures var now, need := NumBlocks(v.inodes[n].size), NumBlocks(size);
            Slots(v, WrittenInode(v, n, size))
            == (if now < need then SlotsAt(v, n) else SlotsAt(v, n)[..need]) + Extra(v, n, size)
  {
    hide Owns, GoodObjs;
    LiveNode(v, n);
    NewPointersSlots(v, v.inodes[n], WrittenInode(v, n, size), Extra(v, n, size));
  }

  lemma WrittenInodeFits(v: Vol, n: int, size: nat)
    requires Sound(v) && IsFile(v, n) && NumBlocks(size) <= DIRECT_PTRS && CanWrite(v, n, size)
    ensures MayHold(v, n, WrittenInode(v, n, size))
  {
    WrittenSlots(v, n, size);
    SlotsInRange(v, n);
    hide Owns, GoodObjs;
    TakeClearFresh(v.dbits, |Extra(v, n, size)|);
  }

  /** `write`: an error changes nothing; otherwise the file is the buffer, on its old leading blocks and
      the lowest free ones. */
  ghost function Write(v: Vol, n: int, buf: seq<bv8>, leftover: Page): Outcome
    requires Consistent(v)
  {
    if |buf| == 0 then Outcome(v, -EINVALIDSIZE)
    else if NumBlocks(|buf|) > DIRECT_PTRS then Outcome(v, -ENOTENOUGHSPACE)
    else if !Live(v, n) then Outcome(v, -EINVALIDINODE)
    else if v.inodes[n].typ != UFS_REGULAR_FILE then Outcome(v, -EWRITETODIR)
    else if !CanWrite(v, n, |buf|) then Outcome(v, -ENOTENOUGHSPACE)
    else
      WrittenInodeFits(v, n, |buf|);
      Outcome(SetObj(v, n, WrittenInode(v, n, |buf|), FileBlocks(buf, leftover)), |buf|)
  }

  /** A failing call returns the volume it was given; any other makes the buffer the whole content of the
      file and touches nothing else. */
  ghost predicate Overwrote(v: Vol, n: int, buf: seq<bv8>, out: Outcome)
    requires Sound(v)
  {
    && (out.ret < 0 ==> out.vol == v)
    && (out.ret >= 0 ==>
          && out.ret == |buf| > 0
          && Sound(out.vol)
          && n in Abs(v) && Abs(v)[n].FileNode?
          && Abs(out.vol) == Abs(v)[n := FileNode(buf)])
  }

  lemma WriteRefines(v: Vol, n: int, buf: seq<bv8>, leftover: Page)
    requires Consistent(v)
    ensures var out := Write(v, n, buf, leftover);
            Consistent(out.vol) && out.vol.super == v.super && Overwrote(v, n, buf, out)
  {
    if |buf| > 0 && NumBlocks(|buf|) <= DIRECT_PTRS && IsFile(v, n) && CanWrite(v, n, |buf|) {
      WrittenInodeFits(v, n, |buf|);
      LiveNode(v, n);
      FileBlocksHold(n, buf, leftover);
      SetObjAbs(v, n, WrittenInode(v, n, |buf|), FileBlocks(buf, leftover));
      OverwrittenTree(Abs(v), n, buf);
    }
  }

  /** The blocks that file `n` lacks for `size` bytes. */
  ghost function Lacking(v: Vol, n: int, size: nat): nat
    requires Sound(v) && IsFile(v, n)
  {
    var now, need := NumBlocks(v.inodes[n].size), NumBlocks(size);
    if now < need then need - now else 0
  }

  /** `write` succeeds exactly for one to 30 blocks of bytes, into a file, with as many data blocks free as the file
      lacks. */
  lemma WriteSucceedsIff(v: Vol, n: int, buf: seq<bv8>, leftover: Page)
    requires Consistent(v)
    ensures Write(v, n, buf, leftover).ret >= 0
            <==> 0 < |buf| <= 122880 && IsFile(v, n) && Clear(v.dbits, v.super.numData) >= Lacking(v, n, |buf|)
  {
    hide Owns, GoodObjs, Tree, SetObj, TakeClear;
    if IsFile(v, n) {
      TakeClearFits(v.dbits, Lacking(v, n, |buf|), v.super.numData);
    }
  }

  /** The blocks of a file after a successful write, whether it grew, shrank or kept its block count:
      the leading blocks are the old ones. */
  lemma WriteReusesBlocks(v: Vol, n: int, buf: seq<bv8>, leftover: Page)
    requires Consistent(v) && Write(v, n, buf, leftover).ret >= 0
    ensures var v' := Write(v, n, buf, leftover).vol;
            && Owned(v')
            && |SlotsAt(v', n)| == NumBlocks(|buf|)
            && forall k :: 0 <= k < |SlotsAt(v, n)| && k < NumBlocks(|buf|) ==> SlotsAt(v', n)[k] == SlotsAt(v, n)[k]
  {
    WriteRefines(v, n, buf, leftover);
    hide Owns, GoodObjs, Abs;
    WrittenSlots(v, n, |buf|);
    WrittenInodeFits(v, n, |buf|);
    SetObjSlots(v, n, WrittenInode(v, n, |buf|), FileBlocks(buf, leftover));
  }
}
