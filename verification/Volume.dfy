/** The image seen as one bitmap of inodes, one bitmap of data blocks, one inode table and one
    array of data blocks, free of block arithmetic. */
module Volume {
  import opened Ufs
  import opened Bits
  import opened Layout

  datatype Vol = Vol(super: Super, ibits: seq<bool>, dbits: seq<bool>, inodes: seq<Inode>, data: seq<Block>)

  ghost predicate WfVol(v: Vol) {
    && GoodLayout(v.super)
    && |v.ibits| == 32768 * v.super.inodeBitmapLen
    && |v.dbits| == 32768 * v.super.dataBitmapLen
    && |v.inodes| == 32 * v.super.inodeRegionLen
    && |v.data| == v.super.numData
  }

  ghost predicate BytesIn(img: seq<Block>, lo: int, hi: int) {
    0 <= lo <= hi <= |img| && forall a :: lo <= a < hi ==> img[a].ByteBlock?
  }

  ghost predicate InodesIn(img: seq<Block>, lo: int, hi: int) {
    0 <= lo <= hi <= |img| && forall a :: lo <= a < hi ==> img[a].InodeBlock?
  }

  /** Every block of the image has the shape its region calls for. */
  ghost predicate Typed(img: seq<Block>) {
    && |img| > 0 && img[0].SuperBlock?
    && var s := img[0].super;
    && GoodLayout(s)
    && |img| == s.dataRegionAddr + s.numData
    && BytesIn(img, 1, s.inodeRegionAddr)
    && InodesIn(img, s.inodeRegionAddr, s.dataRegionAddr)
  }

  ghost function BitsAt(img: seq<Block>, addr: int, len: nat): seq<bool>
    requires BytesIn(img, addr, addr + len)
  {
    seq(32768 * len, n requires 0 <= n < 32768 * len => Bit(img[addr + n / 32768].bytes[n % 32768 / 8], n % 8))
  }

  ghost function InodesAt(img: seq<Block>, addr: int, len: nat): seq<Inode>
    requires InodesIn(img, addr, addr + len)
  {
    seq(32 * len, n requires 0 <= n < 32 * len => img[addr + n / 32].inodes[n % 32])
  }

  ghost function View(img: seq<Block>): (v: Vol)
    requires Typed(img)
    ensures WfVol(v) && v.super == img[0].super
  {
    var s := img[0].super;
    Vol(s,
        BitsAt(img, s.inodeBitmapAddr, s.inodeBitmapLen),
        BitsAt(img, s.dataBitmapAddr, s.dataBitmapLen),
        InodesAt(img, s.inodeRegionAddr, s.inodeRegionLen),
        img[s.dataRegionAddr..])
  }

  lemma BitPosition(n: nat, i: nat, j: nat, k: nat)
    requires j < 4096 && k < 8
    requires n == 32768 * i + 8 * j + k
    ensures n / 32768 == i && n % 32768 / 8 == j && n % 8 == k
  {
  }

  /** The image with bit `n` of the bitmap at `addr` changed, in its byte and block. */
  function WithBitAt(img: seq<Block>, addr: int, n: nat, value: bool): (img': seq<Block>)
    requires 0 <= addr && addr + n / 32768 < |img| && img[addr + n / 32768].ByteBlock?
    ensures |img'| == |img|
  {
    var a := addr + n / 32768;
    var j := n % 32768 / 8;
    img[a := ByteBlock(img[a].bytes[j := WithBit(img[a].bytes[j], n % 8, value)])]
  }

  lemma SameByte(m: nat, n: nat)
    requires m / 32768 == n / 32768 && m % 32768 / 8 == n % 32768 / 8
    ensures m == n <==> m % 8 == n % 8
  {
  }

  lemma BitOfWrittenImage(img: seq<Block>, addr: int, len: nat, n: nat, value: bool, m: nat)
    requires BytesIn(img, addr, addr + len)
    requires n < 32768 * len && m < 32768 * len
    requires BytesIn(WithBitAt(img, addr, n, value), addr, addr + len)
    ensures BitsAt(WithBitAt(img, addr, n, value), addr, len)[m] == if m == n then value else BitsAt(img, addr, len)[m]
  {
    WithBitIs(img[addr + n / 32768].bytes[n % 32768 / 8], n % 8, value);
    hide Bit, WithBit;
    if m / 32768 == n / 32768 && m % 32768 / 8 == n % 32768 / 8 {
      SameByte(m, n);
    }
  }

  /** Changing bit `n % 8` of the byte that holds bit `n` changes bit `n` of the whole bitmap, and no other:
      setting it as the allocators do, clearing it as the code that frees does. */
  lemma BitsAfterWrite(img: seq<Block>, addr: int, len: nat, n: nat, value: bool)
    requires BytesIn(img, addr, addr + len)
    requires n < 32768 * len
    ensures var img' := WithBitAt(img, addr, n, value);
            && BytesIn(img', addr, addr + len)
            && BitsAt(img', addr, len) == BitsAt(img, addr, len)[n := value]
  {
    var img' := WithBitAt(img, addr, n, value);
    var before, after := BitsAt(img, addr, len), BitsAt(img', addr, len);
    forall m: nat | m < 32768 * len
      ensures after[m] == before[n := value][m]
    {
      BitOfWrittenImage(img, addr, len, n, value, m);
    }
  }

  lemma BitsUnchanged(img: seq<Block>, img': seq<Block>, addr: int, len: nat)
    requires BytesIn(img, addr, addr + len)
    requires |img'| == |img|
    requires forall a :: addr <= a < addr + len ==> img'[a] == img[a]
    ensures BytesIn(img', addr, addr + len)
    ensures BitsAt(img', addr, len) == BitsAt(img, addr, len)
  {
  }

  lemma InodesUnchanged(img: seq<Block>, img': seq<Block>, addr: int, len: nat)
    requires InodesIn(img, addr, addr + len)
    requires |img'| == |img|
    requires forall a :: addr <= a < addr + len ==> img'[a] == img[a]
    ensures InodesIn(img', addr, addr + len)
    ensures InodesAt(img', addr, len) == InodesAt(img, addr, len)
  {
  }

  /** Writing a block of the data region. */
  lemma ViewDataWrite(img: seq<Block>, b: int, blk: Block)
    requires Typed(img)
    requires 0 <= b < img[0].super.numData
    ensures var img' := img[img[0].super.dataRegionAddr + b := blk];
            && Typed(img')
            && View(img') == View(img).(data := View(img).data[b := blk])
  {
    var s := img[0].super;
    var img' := img[s.dataRegionAddr + b := blk];
    BitsUnchanged(img, img', s.inodeBitmapAddr, s.inodeBitmapLen);
    BitsUnchanged(img, img', s.dataBitmapAddr, s.dataBitmapLen);
    InodesUnchanged(img, img', s.inodeRegionAddr, s.inodeRegionLen);
    assert img'[s.dataRegionAddr..] == img[s.dataRegionAddr..][b := blk];
  }

  /** Writing back an inode block with one inode replaced. */
  lemma ViewInodeWrite(img: seq<Block>, n: int, inode: Inode)
    requires Typed(img)
    requires 0 <= n < img[0].super.numInodes
    ensures var s := img[0].super;
            var a := s.inodeRegionAddr + InodeBlockIndex(n);
            && s.inodeRegionAddr <= a < s.dataRegionAddr
            && var img' := img[a := InodeBlock(img[a].inodes[InodeBlockOffset(n) := inode])];
            && Typed(img')
            && View(img') == View(img).(inodes := View(img).inodes[n := inode])
  {
    var s := img[0].super;
    var a := s.inodeRegionAddr + n / 32;
    var img' := img[a := InodeBlock(img[a].inodes[n % 32 := inode])];
    BitsUnchanged(img, img', s.inodeBitmapAddr, s.inodeBitmapLen);
    BitsUnchanged(img, img', s.dataBitmapAddr, s.dataBitmapLen);
    assert img'[s.dataRegionAddr..] == img[s.dataRegionAddr..];
    var before, after := InodesAt(img, s.inodeRegionAddr, s.inodeRegionLen),
        InodesAt(img', s.inodeRegionAddr, s.inodeRegionLen);
    forall m | 0 <= m < |before|
      ensures after[m] == before[n := inode][m]
    {
      if m / 32 == n / 32 {
        assert m == n <==> m % 32 == n % 32;
      }
    }
    assert after == before[n := inode];
  }

  /** Changing one bit of the inode bitmap. */
  lemma ViewInodeBitWrite(img: seq<Block>, n: nat, value: bool)
    requires Typed(img)
    requires n < 32768 * img[0].super.inodeBitmapLen
    ensures var img' := WithBitAt(img, img[0].super.inodeBitmapAddr, n, value);
            Typed(img') && View(img') == View(img).(ibits := View(img).ibits[n := value])
  {
    hide BitsAt, InodesAt;
    var s := img[0].super;
    var img' := WithBitAt(img, s.inodeBitmapAddr, n, value);
    BitsAfterWrite(img, s.inodeBitmapAddr, s.inodeBitmapLen, n, value);
    BitsUnchanged(img, img', s.dataBitmapAddr, s.dataBitmapLen);
    InodesUnchanged(img, img', s.inodeRegionAddr, s.inodeRegionLen);
    assert img'[s.dataRegionAddr..] == img[s.dataRegionAddr..];
  }

  /** Changing one bit of the data bitmap. */
  lemma ViewDataBitWrite(img: seq<Block>, n: nat, value: bool)
    requires Typed(img)
    requires n < 32768 * img[0].super.dataBitmapLen
    ensures var img' := WithBitAt(img, img[0].super.dataBitmapAddr, n, value);
            Typed(img') && View(img') == View(img).(dbits := View(img).dbits[n := value])
  {
    hide BitsAt, InodesAt;
    var s := img[0].super;
    var img' := WithBitAt(img, s.dataBitmapAddr, n, value);
    BitsAfterWrite(img, s.dataBitmapAddr, s.dataBitmapLen, n, value);
    BitsUnchanged(img, img', s.inodeBitmapAddr, s.inodeBitmapLen);
    InodesUnchanged(img, img', s.inodeRegionAddr, s.inodeRegionLen);
    assert img'[s.dataRegionAddr..] == img[s.dataRegionAddr..];
  }

  lemma BitInByte(n: nat)
    ensures n % 8 == n % 32768 % 8 && 0 <= n % 32768 / 8 < 4096
  {
    assert n == 32768 * (n / 32768) + n % 32768;
  }

  lemma BitInBlock(img: seq<Block>, addr: int, len: nat, n: nat)
    requires BytesIn(img, addr, addr + len) && n < 32768 * len
    ensures 0 <= n / 32768 < len && img[addr + n / 32768].ByteBlock? && 0 <= n % 32768 / 8 < 4096
    ensures BitsAt(img, addr, len)[n] == Bit(img[addr + n / 32768].bytes[n % 32768 / 8], n % 32768 % 8)
  {
    hide Bit;
    BitInByte(n);
  }

  lemma ViewInodeBit(img: seq<Block>, n: nat)
    requires Typed(img)
    requires n < img[0].super.numInodes
    ensures var s := img[0].super;
            var a := s.inodeBitmapAddr + BitmapBlockIndex(n);
            && s.inodeBitmapAddr <= a < s.dataBitmapAddr <= |img| && img[a].ByteBlock?
            && View(img).ibits[n] == Bit(img[a].bytes[BitmapOffset(n) / 8], BitmapOffset(n) % 8)
  {
    hide Bit, BitsAt;
    BitInBlock(img, img[0].super.inodeBitmapAddr, img[0].super.inodeBitmapLen, n);
  }

  lemma ViewInodeSlot(img: seq<Block>, n: nat)
    requires Typed(img)
    requires n < img[0].super.numInodes
    ensures var s := img[0].super;
            var b := s.inodeRegionAddr + InodeBlockIndex(n);
            && s.inodeRegionAddr <= b < s.dataRegionAddr <= |img| && img[b].InodeBlock?
            && View(img).inodes[n] == img[b].inodes[InodeBlockOffset(n)]
  {
    hide BitsAt;
  }

  /** The bit tested for inode `n`, and the slot that holds it, are bit and element `n` of the view. */
  lemma ViewInode(img: seq<Block>, n: nat)
    requires Typed(img)
    requires n < img[0].super.numInodes
    ensures var s := img[0].super;
            var a, b := s.inodeBitmapAddr + BitmapBlockIndex(n), s.inodeRegionAddr + InodeBlockIndex(n);
            && s.inodeBitmapAddr <= a < s.dataBitmapAddr && s.inodeRegionAddr <= b < s.dataRegionAddr
            && View(img).ibits[n] == Bit(img[a].bytes[BitmapOffset(n) / 8], BitmapOffset(n) % 8)
            && View(img).inodes[n] == img[b].inodes[InodeBlockOffset(n)]
  {
    hide View, Bit, BitsAt;
    ViewInodeBit(img, n);
    ViewInodeSlot(img, n);
  }

  lemma ViewData(img: seq<Block>, pointer: int)
    requires Typed(img)
    requires 0 <= pointer - img[0].super.dataRegionAddr < img[0].super.numData
    ensures 0 <= pointer < |img| && img[pointer] == View(img).data[pointer - img[0].super.dataRegionAddr]
  {
  }
}
