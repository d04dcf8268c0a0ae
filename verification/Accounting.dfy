/** Conservation of space: what the bitmaps count is what the objects use. */
module Accounting {
  import opened Ufs
  import opened Bits
  import opened Volume
  import opened Storage
  import opened Objects
  import opened Namespace
  import opened Consistency
  import opened CreateSpec
  import opened WriteSpec
  import opened UnlinkSpec

  /** The number of set bits. */
  ghost function Count(bits: seq<bool>): nat {
    if bits == [] then 0
    else Count(bits[..|bits| - 1]) + if bits[|bits| - 1] then 1 else 0
  }

  ghost function SetBits(bits: seq<bool>): set<int> {
    set b | 0 <= b < |bits| && bits[b]
  }

  lemma {:induction false} CountIsSize(bits: seq<bool>)
    ensures Count(bits) == |SetBits(bits)|
  {
    if bits != [] {
      var last := |bits| - 1;
      CountIsSize(bits[..last]);
      if bits[last] {
        assert SetBits(bits) == SetBits(bits[..last]) + {last};
      } else {
        assert SetBits(bits) == SetBits(bits[..last]);
      }
    }
  }

  ghost function Elements(s: seq<int>): set<int> {
    set x | x in s
  }

  lemma {:induction false} DistinctSize(s: seq<int>)
    requires Distinct(s)
    ensures |Elements(s)| == |s|
  {
    if s != [] {
      var last := |s| - 1;
      DistinctSize(s[..last]);
      assert Elements(s) == Elements(s[..last]) + {s[last]};
    }
  }

  /** The data blocks that an object occupies. */
  ghost function BlocksOf(node: Node): nat {
    match node
    case FileNode(content) => (|content| + 4095) / 4096
    case DirNode(_, entries) => (32 * (|entries| + 2) + 4095) / 4096
  }

  ghost function BlocksUsedBy(N: map<int, Node>, n: int): nat {
    if n in N then BlocksOf(N[n]) else 0
  }

  /** The data blocks that the objects below number `limit` occupy. */
  ghost function UsedBlocks(N: map<int, Node>, limit: nat): nat {
    if limit == 0 then 0 else UsedBlocks(N, limit - 1) + BlocksUsedBy(N, limit - 1)
  }

  ghost function EntriesAt(N: map<int, Node>, n: int): nat {
    if n in N && N[n].DirNode? then |N[n].entries| else 0
  }

  /** The entries, other than the dots, of the directories below number `limit`. */
  ghost function UsedEntries(N: map<int, Node>, limit: nat): nat {
    if limit == 0 then 0 else UsedEntries(N, limit - 1) + EntriesAt(N, limit - 1)
  }

  // Data blocks

  ghost function OwnedBelow(v: Vol, own: seq<Loc>, limit: int): set<int>
    requires WfVol(v) && |own| == v.super.numData
  {
    set b | 0 <= b < v.super.numData && v.dbits[b] && 0 <= own[b].inum < limit
  }

  lemma OwnersOf(v: Vol, own: seq<Loc>, n: nat)
    requires Sound(v) && Owns(v, own)
    ensures forall b :: 0 <= b < v.super.numData ==> (b in SlotsAt(v, n) <==> v.dbits[b] && own[b].inum == n)
    ensures forall b :: b in SlotsAt(v, n) ==> 0 <= b < v.super.numData
  {
    SlotsInRange(v, n);
    forall k | 0 <= k < |SlotsAt(v, n)|
      ensures own[SlotsAt(v, n)[k]] == Loc(n, k)
    {
      assert PointsAt(v, own, n, k);
    }
    forall b | 0 <= b < v.super.numData && v.dbits[b] && own[b].inum == n
      ensures b in SlotsAt(v, n)
    {
      assert Backed(v, own, b);
    }
  }

  lemma SlotCount(v: Vol, n: nat)
    requires Sound(v)
    ensures |Elements(SlotsAt(v, n))| == BlocksUsedBy(Abs(v), n)
  {
    hide Owns, GoodObjs, NodeOf, Nodes;
    SlotsInRange(v, n);
    DistinctSize(SlotsAt(v, n));
    AbsAt(v, n);
    if Live(v, n) {
      LiveNode(v, n);
      LiveGood(v, n);
      NodeBlocks(n, ObjAt(v, n));
    }
  }

  lemma OwnedByOne(v: Vol, own: seq<Loc>, n: nat)
    requires Sound(v) && Owns(v, own)
    ensures OwnedBelow(v, own, n + 1) == OwnedBelow(v, own, n) + Elements(SlotsAt(v, n))
    ensures OwnedBelow(v, own, n) !! Elements(SlotsAt(v, n))
  {
    hide Owns, GoodObjs, SlotsAt;
    OwnersOf(v, own, n);
  }

  lemma NodeBlocks(n: int, o: Obj)
    requires GoodObj(n, o)
    ensures BlocksOf(NodeOf(n, o)) == NumBlocks(o.size)
  {
  }

  lemma NoneOwned(v: Vol, own: seq<Loc>)
    requires Sound(v) && Owns(v, own)
    ensures |OwnedBelow(v, own, 0)| == 0
  {
    hide GoodObjs;
    assert OwnedBelow(v, own, 0) == {};
  }

  lemma {:induction false} OwnedCount(v: Vol, own: seq<Loc>, limit: nat)
    requires Sound(v) && Owns(v, own)
    ensures |OwnedBelow(v, own, limit)| == UsedBlocks(Abs(v), limit)
  {
    hide Owns, Owned, GoodObjs, Abs, SlotsAt;
    if limit == 0 {
      NoneOwned(v, own);
    } else {
      OwnedCount(v, own, limit - 1);
      OwnedByOne(v, own, limit - 1);
      SlotCount(v, limit - 1);
    }
  }

  /** The number of set data bits is the number of blocks that the objects occupy. */
  lemma DataBitsConserved(v: Vol)
    requires Sound(v)
    ensures Count(v.dbits) == UsedBlocks(Abs(v), v.super.numInodes)
  {
    var own: seq<Loc> :| Owns(v, own);
    CountIsSize(v.dbits);
    OwnedCount(v, own, v.super.numInodes);
    AllOwned(v, own);
  }

  lemma AllOwned(v: Vol, own: seq<Loc>)
    requires Sound(v) && Owns(v, own)
    ensures SetBits(v.dbits) == OwnedBelow(v, own, v.super.numInodes)
  {
    forall b | 0 <= b < |v.dbits| && v.dbits[b]
      ensures b in OwnedBelow(v, own, v.super.numInodes)
    {
      assert Backed(v, own, b);
    }
  }

  // Inodes

  ghost function NamedBelow(N: map<int, Node>, at: map<int, Loc>, limit: int): set<int> {
    set m | m in N && m != 0 && m in at && 0 <= at[m].inum < limit
  }

  ghost function Targets(es: seq<DirEnt>): (r: seq<int>)
    ensures |r| == |es|
  {
    seq(|es|, i requires 0 <= i < |es| => es[i].inum)
  }

  ghost function TargetsAt(N: map<int, Node>, n: int): seq<int> {
    if n in N && N[n].DirNode? then Targets(N[n].entries) else []
  }

  lemma NamedByOne(N: map<int, Node>, at: map<int, Loc>, rank: map<int, nat>, n: nat)
    requires Named(N, at, rank)
    ensures NamedBelow(N, at, n + 1) == NamedBelow(N, at, n) + Elements(TargetsAt(N, n))
    ensures NamedBelow(N, at, n) !! Elements(TargetsAt(N, n))
    ensures |Elements(TargetsAt(N, n))| == EntriesAt(N, n)
  {
    var targets := TargetsAt(N, n);
    forall e | 0 <= e < |targets|
      ensures targets[e] in N && targets[e] != 0 && targets[e] in at && at[targets[e]] == Loc(n, e)
    {
      assert GoodEntry(N, at, rank, n, e);
    }
    DistinctSize(targets);
    forall m | m in N && m != 0 && m in at && at[m].inum == n
      ensures m in targets
    {
      assert NamedAt(N, at, m);
      assert targets[at[m].slot] == m;
    }
  }

  lemma {:induction false} NamedCount(N: map<int, Node>, at: map<int, Loc>, rank: map<int, nat>, limit: nat)
    requires Named(N, at, rank)
    ensures |NamedBelow(N, at, limit)| == UsedEntries(N, limit)
  {
    hide Named;
    if limit == 0 {
      assert NamedBelow(N, at, 0) == {};
    } else {
      NamedCount(N, at, rank, limit - 1);
      NamedByOne(N, at, rank, limit - 1);
    }
  }

  /** The number of set inode bits is one, for the root, plus the number of entries other than the dots. */
  lemma InodeBitsConserved(v: Vol)
    requires Consistent(v)
    ensures Count(v.ibits) == 1 + UsedEntries(Abs(v), v.super.numInodes)
  {
    hide Owns, GoodObjs, Named, Abs, Count, SetBits;
    var N := Abs(v);
    var at: map<int, Loc>, rank: map<int, nat> :| Named(N, at, rank);
    CountIsSize(v.ibits);
    NamedCount(N, at, rank, v.super.numInodes);
    SetInodes(v);
    AllNamed(N, at, rank, v.super.numInodes);
    assert 0 !in NamedBelow(N, at, v.super.numInodes);
  }

  /** The number of set inode bits is the number of objects. */
  lemma InodeBitsAre(v: Vol)
    requires Sound(v)
    ensures Count(v.ibits) == |Abs(v)|
  {
    hide Owned, GoodObjs, Abs, Count, SetBits;
    CountIsSize(v.ibits);
    SetInodes(v);
  }

  lemma SetInodes(v: Vol)
    requires Sound(v)
    ensures SetBits(v.ibits) == Abs(v).Keys
    ensures forall n :: n in Abs(v) ==> 0 <= n < v.super.numInodes
  {
    hide GoodObjs, Abs;
    var own: seq<Loc> :| Owns(v, own);
    forall n: int
      ensures n in SetBits(v.ibits) <==> n in Abs(v)
      ensures n in Abs(v) ==> 0 <= n < v.super.numInodes
    {
      AbsAt(v, n);
    }
  }

  lemma AllNamed(N: map<int, Node>, at: map<int, Loc>, rank: map<int, nat>, limit: int)
    requires Named(N, at, rank)
    requires forall n :: n in N ==> 0 <= n < limit
    ensures N.Keys == NamedBelow(N, at, limit) + {0}
  {
    forall m | m in N && m != 0
      ensures m in at && 0 <= at[m].inum < limit
    {
      assert NamedAt(N, at, m);
    }
  }

  // Each call's share

  lemma {:induction false} UsedBlocksChange(N: map<int, Node>, n: int, node: Node, limit: nat)
    requires 0 <= n < limit
    ensures UsedBlocks(N[n := node], limit) == UsedBlocks(N, limit) - BlocksUsedBy(N, n) + BlocksOf(node)
  {
    if n == limit - 1 {
      UsedBlocksSame(N, N[n := node], limit - 1);
    } else {
      UsedBlocksChange(N, n, node, limit - 1);
    }
  }

  lemma {:induction false} UsedBlocksGone(N: map<int, Node>, n: int, limit: nat)
    requires 0 <= n < limit
    ensures UsedBlocks(N - {n}, limit) == UsedBlocks(N, limit) - BlocksUsedBy(N, n)
  {
    if n == limit - 1 {
      UsedBlocksSame(N, N - {n}, limit - 1);
    } else {
      UsedBlocksGone(N, n, limit - 1);
    }
  }

  lemma {:induction false} UsedBlocksSame(N: map<int, Node>, M: map<int, Node>, limit: nat)
    requires forall m :: 0 <= m < limit ==> BlocksUsedBy(N, m) == BlocksUsedBy(M, m)
    ensures UsedBlocks(N, limit) == UsedBlocks(M, limit)
  {
    if limit > 0 { UsedBlocksSame(N, M, limit - 1); }
  }

  lemma OneMoreEntry(es: seq<DirEnt>, parent: int, ent: DirEnt)
    ensures BlocksOf(DirNode(parent, es + [ent])) == BlocksOf(DirNode(parent, es)) + if (|es| + 2) % 128 == 0 then 1
            else 0
  {
  }

  /** A new object takes its own blocks, and one more if its directory's were full. */
  lemma EnteredBlocks(N: map<int, Node>, n: int, name: Name, i: int, node: Node, limit: nat)
    requires n in N && N[n].DirNode? && i !in N && 0 <= n < limit && 0 <= i < limit
    ensures UsedBlocks(Entered(N, n, name, i, node), limit)
            == UsedBlocks(N, limit) + BlocksOf(node) + if (|N[n].entries| + 2) % 128 == 0 then 1 else 0
  {
    hide BlocksOf, UsedBlocks;
    var N1 := N[i := node];
    UsedBlocksChange(N, i, node, limit);
    UsedBlocksChange(N1, n, N[n].(entries := N[n].entries + [DirEnt(name, i)]), limit);
    OneMoreEntry(N[n].entries, N[n].parent, DirEnt(name, i));
  }

  lemma NumberInRange(v: Vol, n: int)
    requires Sound(v) && n in Abs(v)
    ensures 0 <= n < v.super.numInodes
  {
    AbsAt(v, n);
  }

  /** A successful write takes or gives back exactly the difference in blocks, and no inode. */
  lemma WriteShare(v: Vol, n: int, buf: seq<bv8>, leftover: Page)
    requires Consistent(v) && Write(v, n, buf, leftover).ret >= 0
    ensures n in Abs(v) && Sound(Write(v, n, buf, leftover).vol)
    ensures Count(Write(v, n, buf, leftover).vol.dbits) - Count(v.dbits) == NumBlocks(|buf|) - BlocksOf(Abs(v)[n])
    ensures Count(Write(v, n, buf, leftover).vol.ibits) == Count(v.ibits)
  {
    hide Owned, GoodObjs, Tree, Write, Abs, Count;
    WriteRefines(v, n, buf, leftover);
    var v' := Write(v, n, buf, leftover).vol;
    NumberInRange(v, n);
    DataBitsConserved(v);
    DataBitsConserved(v');
    InodeBitsAre(v);
    InodeBitsAre(v');
    assert Abs(v').Keys == Abs(v).Keys;
    UsedBlocksChange(Abs(v), n, FileNode(buf), v.super.numInodes);
  }

  lemma OneInodeMore(v: Vol, v': Vol, i: int)
    requires Sound(v) && Sound(v') && i !in Abs(v) && Abs(v').Keys == Abs(v).Keys + {i}
    ensures Count(v'.ibits) == Count(v.ibits) + 1
  {
    hide Owned, GoodObjs, Abs, Count;
    InodeBitsAre(v);
    InodeBitsAre(v');
  }

  /** A successful creation takes one inode, one block for a new directory, and one if its parent's blocks were full. */
  lemma CreateShare(v: Vol, parent: int, typ: int, name: Name)
    requires Consistent(v) && IsType(typ) && Create(v, parent, typ, name).ret >= 0
    requires Lookup(Abs(v), parent, name) == -ENOTFOUND
    ensures parent in Abs(v) && Abs(v)[parent].DirNode?
    ensures Count(Create(v, parent, typ, name).vol.dbits) - Count(v.dbits)
            == (if typ == UFS_DIRECTORY then 1 else 0) + (if (|Abs(v)[parent].entries| + 2) % 128 == 0 then 1 else 0)
    ensures Count(Create(v, parent, typ, name).vol.ibits) == Count(v.ibits) + 1
  {
    hide Owned, GoodObjs, Tree, Create, Abs, Count, UsedBlocks;
    CreateRefines(v, parent, typ, name);
    var out := Create(v, parent, typ, name);
    NumberInRange(v, parent);
    DataBitsConserved(v);
    DataBitsConserved(out.vol);
    OneInodeMore(v, out.vol, out.ret);
    EnteredBlocks(Abs(v), parent, name, out.ret, NewNode(typ, parent), v.super.numInodes);
  }

  /** A successful removal gives back the object's inode and blocks, and one of its directory's if that is empty now. */
  lemma UnlinkShare(v: Vol, parent: int, name: Name)
    requires Consistent(v) && Unlink(v, parent, name).ret >= 0
    ensures parent in Abs(v) && Abs(v)[parent].DirNode? && Find(Abs(v)[parent].entries, name) >= 0
    ensures var es := Abs(v)[parent].entries;
            var c := es[Find(es, name)].inum;
            && c in Abs(v)
            && Count(v.dbits) - Count(Unlink(v, parent, name).vol.dbits)
               == BlocksOf(Abs(v)[c]) + (if (|es| + 1) % 128 == 0 then 1 else 0)
            && Count(Unlink(v, parent, name).vol.ibits) == Count(v.ibits) - 1
  {
    hide Owned, GoodObjs, Tree, Unlink, Abs, Count, Find;
    UnlinkRefines(v, parent, name);
    var v' := Unlink(v, parent, name).vol;
    var N := Abs(v);
    var e := Find(N[parent].entries, name);
    var c := N[parent].entries[e].inum;
    EntryTargetIn(N, parent, e);
    NumberInRange(v, parent);
    NumberInRange(v, c);
    DataBitsConserved(v);
    DataBitsConserved(v');
    assert N.Keys == Abs(v').Keys + {c};
    OneInodeMore(v', v, c);
    var N1 := N[parent := N[parent].(entries := Without(N[parent].entries, e))];
    UsedBlocksChange(N, parent, N1[parent], v.super.numInodes);
    UsedBlocksGone(N1, c, v.super.numInodes);
  }

  // What is left

  lemma {:induction false} ClearRest(bits: seq<bool>, limit: nat)
    requires limit <= |bits|
    ensures Clear(bits, limit) + Count(bits[..limit]) == limit
  {
    if limit > 0 {
      ClearRest(bits, limit - 1);
      assert bits[..limit][..limit - 1] == bits[..limit - 1];
    } else {
      assert bits[..limit] == [];
    }
  }

  lemma {:induction false} CountBelow(bits: seq<bool>, limit: nat)
    requires limit <= |bits| && forall b :: limit <= b < |bits| ==> !bits[b]
    ensures Count(bits[..limit]) == Count(bits)
    decreases |bits|
  {
    if limit == |bits| {
      assert bits[..limit] == bits;
    } else {
      CountBelow(bits[..|bits| - 1], limit);
      assert bits[..|bits| - 1][..limit] == bits[..limit];
    }
  }

  /** The clear bits below the number of inodes or data blocks are what the objects do not use. */
  lemma SpaceLeft(v: Vol)
    requires Sound(v)
    ensures Clear(v.ibits, v.super.numInodes) == v.super.numInodes - |Abs(v)|
    ensures Clear(v.dbits, v.super.numData) == v.super.numData - UsedBlocks(Abs(v), v.super.numInodes)
  {
    hide Clear, Count, GoodObjs, Abs;
    InodeBitsAre(v);
    DataBitsConserved(v);
    NothingBeyond(v);
    CountBelow(v.ibits, v.super.numInodes);
    CountBelow(v.dbits, v.super.numData);
    ClearRest(v.ibits, v.super.numInodes);
    ClearRest(v.dbits, v.super.numData);
  }

  lemma NothingBeyond(v: Vol)
    requires Owned(v)
    ensures forall b :: v.super.numInodes <= b < |v.ibits| ==> !v.ibits[b]
    ensures forall b :: v.super.numData <= b < |v.dbits| ==> !v.dbits[b]
  {
    var own: seq<Loc> :| Owns(v, own);
    assert forall b :: 0 <= b < |v.dbits| && v.dbits[b] ==> Backed(v, own, b);
  }
}
