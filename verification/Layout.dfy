/** Where `mkfs` puts each region, and what every address computation may rely on. */
module Layout {
  import opened Ufs

  /** The superblock that mkfs computes, length by length and address by address. */
  function MkfsSuper(numInodes: int, numData: int): Super
    requires numInodes >= 32 && numData >= 32
  {
    var inodeBitmapLen := numInodes / 32768 + if numInodes % 32768 != 0 then 1 else 0;
    var dataBitmapAddr := 1 + inodeBitmapLen;
    var dataBitmapLen := numData / 32768 + if numData % 32768 != 0 then 1 else 0;
    var inodeRegionAddr := dataBitmapAddr + dataBitmapLen;
    var totalInodeBytes := numInodes * 128;
    var inodeRegionLen := totalInodeBytes / 4096 + if totalInodeBytes % 4096 != 0 then 1 else 0;
    Super(1, inodeBitmapLen, dataBitmapAddr, dataBitmapLen, inodeRegionAddr, inodeRegionLen,
          inodeRegionAddr + inodeRegionLen, numData, numInodes, numData)
  }

  function TotalBlocks(s: Super): int {
    1 + s.inodeBitmapLen + s.dataBitmapLen + s.inodeRegionLen + s.dataRegionLen
  }

  /** The regions follow the superblock without gap or overlap, and each has room for what it indexes. */
  ghost predicate GoodLayout(s: Super) {
    && s.numInodes >= 32 && s.numData >= 32
    && s.inodeBitmapLen > 0 && s.dataBitmapLen > 0 && s.inodeRegionLen > 0
    && s.inodeBitmapAddr == 1
    && s.dataBitmapAddr == s.inodeBitmapAddr + s.inodeBitmapLen
    && s.inodeRegionAddr == s.dataBitmapAddr + s.dataBitmapLen
    && s.dataRegionAddr == s.inodeRegionAddr + s.inodeRegionLen
    && s.dataRegionLen == s.numData
    && s.numInodes <= 32768 * s.inodeBitmapLen < s.numInodes + 32768
    && s.numData <= 32768 * s.dataBitmapLen < s.numData + 32768
    && s.numInodes <= 32 * s.inodeRegionLen < s.numInodes + 32
  }

  lemma MkfsLayoutIsGood(numInodes: int, numData: int)
    requires numInodes >= 32 && numData >= 32
    ensures GoodLayout(MkfsSuper(numInodes, numData))
    ensures var s := MkfsSuper(numInodes, numData);
            s.numInodes == numInodes && s.numData == numData
            && TotalBlocks(s) == s.dataRegionAddr + s.numData
  {
  }

  datatype Region = SuperRegion | InodeBitmap | DataBitmap | InodeRegion | DataRegion

  ghost predicate InRegion(s: Super, r: Region, a: int) {
    match r
    case SuperRegion => a == 0
    case InodeBitmap => s.inodeBitmapAddr <= a < s.inodeBitmapAddr + s.inodeBitmapLen
    case DataBitmap => s.dataBitmapAddr <= a < s.dataBitmapAddr + s.dataBitmapLen
    case InodeRegion => s.inodeRegionAddr <= a < s.inodeRegionAddr + s.inodeRegionLen
    case DataRegion => s.dataRegionAddr <= a < s.dataRegionAddr + s.dataRegionLen
  }

  /** Every block of the image lies in exactly one region. */
  lemma RegionsPartition(numInodes: int, numData: int, a: int)
    requires numInodes >= 32 && numData >= 32
    ensures var s := MkfsSuper(numInodes, numData);
            0 <= a < TotalBlocks(s) <==> exists r :: InRegion(s, r, a)
    ensures var s := MkfsSuper(numInodes, numData);
            forall r, q :: InRegion(s, r, a) && InRegion(s, q, a) ==> r == q
  {
    var s := MkfsSuper(numInodes, numData);
    MkfsLayoutIsGood(numInodes, numData);
    if 0 <= a < TotalBlocks(s) {
      var r := if a == 0 then SuperRegion
               else if a < s.dataBitmapAddr then InodeBitmap
               else if a < s.inodeRegionAddr then DataBitmap
               else if a < s.dataRegionAddr then InodeRegion
               else DataRegion;
      assert InRegion(s, r, a);
    }
  }

  /** The block that holds the bitmap bit, and the block and slot that hold the inode, of inode `n`. */
  function BitmapBlockIndex(n: int): int { n / 32768 }
  function BitmapOffset(n: int): int { n % 32768 }
  function InodeBlockIndex(n: int): int { n / 32 }
  function InodeBlockOffset(n: int): int { n % 32 }

  /** Every address that the file system computes from a valid number falls in the region it is meant
      for, so the superblock is never written; and distinct inodes never share a slot. */
  lemma AddressesStayInRegion(numInodes: int, numData: int, n: int, m: int, b: int)
    requires numInodes >= 32 && numData >= 32
    requires 0 <= n < numInodes && 0 <= m < numInodes && 0 <= b < numData
    ensures var s := MkfsSuper(numInodes, numData);
            && InRegion(s, InodeBitmap, s.inodeBitmapAddr + BitmapBlockIndex(n))
            && InRegion(s, InodeRegion, s.inodeRegionAddr + InodeBlockIndex(n))
            && InRegion(s, DataBitmap, s.dataBitmapAddr + BitmapBlockIndex(b))
            && InRegion(s, DataRegion, s.dataRegionAddr + b)
    ensures InodeBlockIndex(n) == InodeBlockIndex(m) && InodeBlockOffset(n) == InodeBlockOffset(m) ==> n == m
    ensures BitmapBlockIndex(n) == BitmapBlockIndex(m) && BitmapOffset(n) == BitmapOffset(m) ==> n == m
  {
    MkfsLayoutIsGood(numInodes, numData);
  }
}
