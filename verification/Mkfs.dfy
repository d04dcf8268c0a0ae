/** The image that `mkfs` writes is consistent and holds only an empty root directory. */
module Mkfs {
  import opened Ufs
  import opened Bits
  import opened Layout
  import opened Volume
  import opened Storage
  import opened Objects
  import opened Namespace
  import opened Consistency

  function ZeroPage(): Page {
    seq(4096, _ => 0)
  }

  function ZeroPointers(): Pointers {
    seq(30, _ => 0)
  }

  function ZeroInodes(): InodeTable {
    seq(32, _ => Inode(0, 0, ZeroPointers()))
  }

  function FirstBitSet(): Page {
    ZeroPage()[0 := 1]
  }

  /** An all-zero block, under the view that its region calls for. */
  function ZeroBlock(s: Super, a: int): Block {
    if s.inodeRegionAddr <= a < s.dataRegionAddr then InodeBlock(ZeroInodes()) else ByteBlock(ZeroPage())
  }

  /** The first inode block: everything but the root inode is whatever was in memory. */
  function RootTable(s: Super, stale: InodeTable): InodeTable {
    stale[0 := Inode(UFS_DIRECTORY, 64, [s.dataRegionAddr] + seq(29, _ => NO_BLOCK))]
  }

  /** The root directory's block: the names of unused entries are whatever was in memory. */
  function RootPage(stale: DirPage): DirPage {
    [DirEnt(".", 0), DirEnt("..", 0)] + seq(126, i requires 0 <= i < 126 => DirEnt(stale[i + 2].name, -1))
  }

  /** A volume in which only the root exists. */
  ghost predicate OnlyRoot(v: Vol) {
    && WfVol(v)
    && (forall n :: 0 <= n < |v.ibits| ==> v.ibits[n] == (n == 0))
    && (forall b :: 0 <= b < |v.dbits| ==> v.dbits[b] == (b == 0))
    && v.inodes[0].typ == UFS_DIRECTORY && v.inodes[0].size == 64 && v.inodes[0].direct[0] == v.super.dataRegionAddr
    && exists stale :: v.data[0] == DirBlock(RootPage(stale))
  }

  /** mkfs, after its arguments are read. */
  method Format(numInodes: int, numData: int, staleInodes: InodeTable, staleEntries: DirPage)
      returns (image: seq<Block>)
    requires numInodes >= 32 && numData >= 32
    ensures Typed(image) && image[0] == SuperBlock(MkfsSuper(numInodes, numData))
    ensures OnlyRoot(View(image))
    ensures Blank(image, MkfsSuper(numInodes, numData))
  {
    MkfsLayoutIsGood(numInodes, numData);
    hide MkfsSuper, Bit, View, Typed, OnlyRoot, RootTable, RootPage, Blank;
    var s := MkfsSuper(numInodes, numData);
    image := ZeroedImage(s);
    image := image[s.inodeBitmapAddr := ByteBlock(FirstBitSet())];
    image := image[s.dataBitmapAddr := ByteBlock(FirstBitSet())];
    image := image[s.inodeRegionAddr := InodeBlock(RootTable(s, staleInodes))];
    image := image[s.dataRegionAddr := DirBlock(RootPage(staleEntries))];
    FormattedView(s, image, staleInodes, staleEntries);
    FormattedBlank(s, image, staleInodes, staleEntries);
  }

  /** The root has one pointer and 29 that are -1, and but for the blocks that describe it all is zero: the bitmaps
      behind their first blocks, the inodes behind the first 32, and the data blocks behind the first. */
  ghost predicate Blank(image: seq<Block>, s: Super) {
    && GoodLayout(s) && |image| == s.dataRegionAddr + s.numData
    && image[s.inodeRegionAddr].InodeBlock?
    && image[s.inodeRegionAddr].inodes[0]
       == Inode(UFS_DIRECTORY, 64, [s.dataRegionAddr] + seq(29, _ => 0xFFFF_FFFF))
    && forall a :: 1 <= a < |image| && a != s.inodeBitmapAddr && a != s.dataBitmapAddr && a != s.inodeRegionAddr
                   && a != s.dataRegionAddr ==>
         match image[a]
         case ByteBlock(bytes) =>
           && !(s.inodeRegionAddr <= a < s.dataRegionAddr)
           && forall j :: 0 <= j < 4096 ==> bytes[j] == 0
         case InodeBlock(inodes) =>
           && s.inodeRegionAddr <= a < s.dataRegionAddr
           && forall j :: 0 <= j < 32 ==> inodes[j] == Inode(0, 0, seq(30, _ => 0))
         case _ => false
  }

  lemma FormattedBlank(s: Super, image: seq<Block>, staleInodes: InodeTable, staleEntries: DirPage)
    requires Formatted(s, image, staleInodes, staleEntries)
    ensures Blank(image, s)
  {
  }

  /** The blocks that mkfs has written, one after the other. */
  ghost predicate Formatted(s: Super, image: seq<Block>, staleInodes: InodeTable, staleEntries: DirPage) {
    && GoodLayout(s)
    && |image| == s.dataRegionAddr + s.numData
    && image[0] == SuperBlock(s)
    && image[s.inodeBitmapAddr] == ByteBlock(FirstBitSet())
    && image[s.dataBitmapAddr] == ByteBlock(FirstBitSet())
    && image[s.inodeRegionAddr] == InodeBlock(RootTable(s, staleInodes))
    && image[s.dataRegionAddr] == DirBlock(RootPage(staleEntries))
    && forall a | 1 <= a < |image| && a !in [s.inodeBitmapAddr, s.dataBitmapAddr, s.inodeRegionAddr,
        s.dataRegionAddr] ::
         image[a] == ZeroBlock(s, a)
  }

  lemma FormattedTyped(s: Super, image: seq<Block>, staleInodes: InodeTable, staleEntries: DirPage)
    requires Formatted(s, image, staleInodes, staleEntries)
    ensures Typed(image)
  {
  }

  lemma FormattedView(s: Super, image: seq<Block>, staleInodes: InodeTable, staleEntries: DirPage)
    requires Formatted(s, image, staleInodes, staleEntries)
    ensures Typed(image) && OnlyRoot(View(image))
  {
    hide BitsAt, Bit;
    FormattedTyped(s, image, staleInodes, staleEntries);
    FreshBits(image, s.inodeBitmapAddr, s.inodeBitmapLen);
    FreshBits(image, s.dataBitmapAddr, s.dataBitmapLen);
    assert View(image).data[0] == DirBlock(RootPage(staleEntries));
    ViewInode(image, 0);
  }

  /** The superblock, and every other block zeroed in a loop. */
  method ZeroedImage(s: Super) returns (image: seq<Block>)
    requires GoodLayout(s)
    ensures |image| == s.dataRegionAddr + s.numData && image[0] == SuperBlock(s)
    ensures forall a :: 1 <= a < |image| ==> image[a] == ZeroBlock(s, a)
  {
    image := [SuperBlock(s)];
    var i := 1;
    while i < s.dataRegionAddr + s.numData
      invariant 1 <= i <= s.dataRegionAddr + s.numData && |image| == i
      invariant image[0] == SuperBlock(s)
      invariant forall a :: 1 <= a < i ==> image[a] == ZeroBlock(s, a)
    {
      image := image + [ZeroBlock(s, i)];
      i := i + 1;
    }
  }

  lemma FirstByteBits(k: nat)
    requires k < 8
    ensures Bit(1, k) == (k == 0) && !Bit(0, k)
  {
  }

  lemma FreshBits(img: seq<Block>, addr: int, len: nat)
    requires BytesIn(img, addr, addr + len) && len > 0
    requires img[addr] == ByteBlock(FirstBitSet())
    requires forall a :: addr < a < addr + len ==> img[a] == ByteBlock(ZeroPage())
    ensures forall n :: 0 <= n < 32768 * len ==> BitsAt(img, addr, len)[n] == (n == 0)
  {
    hide Bit;
    forall n | 0 <= n < 32768 * len
      ensures BitsAt(img, addr, len)[n] == (n == 0)
    {
      FirstByteBits(n % 8);
      var page := img[addr + n / 32768].bytes;
      if n / 32768 == 0 && n % 32768 / 8 == 0 {
        assert n == 0 <==> n % 8 == 0;
      } else {
        assert page[n % 32768 / 8] == 0;
      }
    }
  }

  /** The base case of every run: the fresh volume is consistent, and its namespace is an empty root. */
  lemma OnlyRootConsistent(v: Vol)
    requires OnlyRoot(v)
    ensures Consistent(v) && Abs(v) == map[0 := DirNode(0, [])]
  {
    var own := seq(v.super.numData, _ => Loc(0, 0));
    OnlyRootOwns(v, own);
    RootObject(v);
    forall n: int
      ensures SameAt(Store(v), map[0 := ObjAt(v, 0)], n)
    {
      StoreMember(v, n);
    }
    SameMap(Store(v), map[0 := ObjAt(v, 0)]);
    RootOnlyTree();
    assert Abs(v) == map[0 := DirNode(0, [])];
  }

  lemma OnlyRootOwns(v: Vol, own: seq<Loc>)
    requires OnlyRoot(v) && own == seq(v.super.numData, _ => Loc(0, 0))
    ensures Owns(v, own)
  {
    forall n, k | Live(v, n) && 0 <= k < NumBlocks(v.inodes[n].size)
      ensures PointsAt(v, own, n, k)
    {
      assert n == 0 && k == 0;
    }
    forall b | 0 <= b < |v.dbits| && v.dbits[b]
      ensures Backed(v, own, b)
    {
      assert b == 0;
    }
  }

  lemma RootObject(v: Vol)
    requires OnlyRoot(v) && Owned(v)
    ensures Live(v, 0) && GoodObj(0, ObjAt(v, 0)) && NodeOf(0, ObjAt(v, 0)) == DirNode(0, [])
  {
    hide Owns;
    SlotsInRange(v, 0);
    var stale :| v.data[0] == DirBlock(RootPage(stale));
    assert SlotsAt(v, 0) == [0];
    assert ObjAt(v, 0).blocks == [DirBlock(RootPage(stale))];
    RootPageGood(stale);
  }

  lemma RootPageGood(stale: DirPage)
    ensures var o := Obj(UFS_DIRECTORY, 64, [DirBlock(RootPage(stale))]);
            GoodObj(0, o) && NodeOf(0, o) == DirNode(0, [])
  {
    var o := Obj(UFS_DIRECTORY, 64, [DirBlock(RootPage(stale))]);
    assert forall e :: 2 <= e < 128 ==> Entries(o.blocks)[e].inum == -1;
  }
}
