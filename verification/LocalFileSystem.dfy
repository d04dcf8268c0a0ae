/** The file system calls as the code makes them: loops over block buffers, and transactions on the disk. */
module LocalFileSystemModel {
  import opened Ufs
  import opened Bits
  import opened DiskModel
  import opened Layout
  import opened Volume
  import opened Storage
  import opened Objects
  import opened Consistency
  import opened CreateSpec
  import opened WriteSpec
  import opened UnlinkSpec
  import opened LookupScan
  import opened ReadSpec
  import opened CreateSteps
  import opened WriteSteps
  import opened UnlinkSteps

  class LocalFileSystem {
    const disk: Disk

    /** The volume on the disk. */
    ghost function Vol(): Vol
      requires Typed(disk.image)
      reads disk
    {
      View(disk.image)
    }

    /** What holds between calls: no transaction is open and the volume is consistent. */
    ghost predicate Valid()
      reads disk
    {
      disk.Valid() && !disk.isInTransaction && Typed(disk.image) && Consistent(Vol())
    }

    /** What holds inside a transaction. */
    ghost predicate InTransaction()
      reads disk
    {
      disk.Valid() && disk.isInTransaction && Typed(disk.image)
    }

    constructor (disk: Disk)
      requires disk.Valid() && !disk.isInTransaction && Typed(disk.image) && Consistent(View(disk.image))
      ensures Valid() && this.disk == disk
    {
      this.disk := disk;
    }

    method ReadSuperBlock() returns (super: Super)
      requires Typed(disk.image)
      ensures super == Vol().super
    {
      var byteBuf := disk.ReadBlock(0);
      super := byteBuf.super;
    }

    /** Succeeds exactly on allocated inodes, and reads the inode. */
    method Stat(inodeNumber: int) returns (ret: int, inode: Inode)
      requires Typed(disk.image)
      ensures ret == if Live(Vol(), inodeNumber) then 0 else -EINVALIDINODE
      ensures ret == 0 ==> inode == Vol().inodes[inodeNumber]
    {
      inode := Inode(0, 0, seq(30, _ => 0));
      var super := ReadSuperBlock();
      if inodeNumber >= super.numInodes || inodeNumber < 0 {
        return -EINVALIDINODE, inode;
      }
      ViewInode(disk.image, inodeNumber);
      hide View, Bit;
      var buf := disk.ReadBlock(super.inodeBitmapAddr + BitmapBlockIndex(inodeNumber));
      var offsetOfBitmap := BitmapOffset(inodeNumber);
      if !Bit(buf.bytes[offsetOfBitmap / 8], offsetOfBitmap % 8) {
        return -EINVALIDINODE, inode;
      }
      buf := disk.ReadBlock(super.inodeRegionAddr + InodeBlockIndex(inodeNumber));
      return 0, buf.inodes[InodeBlockOffset(inodeNumber)];
    }

    /** Scans every entry of the directory's blocks, without regard to its size. */
    method Lookup(parentInodeNumber: int, name: Name) returns (ret: int)
      requires Typed(disk.image) && Consistent(Vol())
      ensures ret == Namespace.Lookup(Abs(Vol()), parentInodeNumber, name)
    {
      ghost var v := Vol();
      AbsAt(v, parentInodeNumber);
      var failed, pinum := Stat(parentInodeNumber);
      if failed != 0 {
        return -EINVALIDINODE;
      }
      LiveNode(v, parentInodeNumber);
      if pinum.typ != UFS_DIRECTORY {
        return -EINVALIDINODE;
      }
      ret := ScanBlocks(parentInodeNumber, name, pinum);
    }

    method ScanBlocks(ghost n: int, name: Name, pinum: Inode) returns (ret: int)
      requires Typed(disk.image) && Consistent(Vol())
      requires IsDir(Vol(), n) && pinum == Vol().inodes[n]
      ensures ret == Namespace.Lookup(Abs(Vol()), n, name)
    {
      hide View, Typed, Owns, GoodObjs, Namespace.Tree, NodeOf, Namespace.Lookup, Entries, NoMatch, Matches, Abs, ObjAt;
      ghost var v := Vol();
      DirObj(v, n);
      ghost var o := ObjAt(v, n);
      ghost var es := Entries(o.blocks);
      NoMatchYet(es, name);
      assert |es| == 128 * NumBlocks(pinum.size);
      var i := 0;
      while i < NumBlocks(pinum.size)
        invariant 0 <= i <= NumBlocks(pinum.size)
        invariant NoMatch(es, 128 * i, name)
      {
        var byteBuf := ReadDirBlock(n, pinum, i);
        assert byteBuf == es[128 * i..128 * i + 128];
        var off := ScanBlock(byteBuf, name);
        NoMatchInBlock(es, i, byteBuf, off, name);
        if off < 128 {
          ScanFound(Abs(v), n, o, name, 128 * i + off);
          return byteBuf[off].inum;
        }
        i := i + 1;
      }
      assert i == NumBlocks(pinum.size);
      ScanMissed(Abs(v), n, o, name);
      return -ENOTFOUND;
    }

    /** Block `i` of a directory holds its entries from `128 * i` on. */
    method ReadDirBlock(ghost n: int, pinum: Inode, i: int) returns (byteBuf: DirPage)
      requires Typed(disk.image) && Sound(Vol())
      requires IsDir(Vol(), n) && pinum == Vol().inodes[n] && 0 <= i < NumBlocks(pinum.size)
      ensures GoodDir(n, ObjAt(Vol(), n)) && 128 * i + 128 <= |Entries(ObjAt(Vol(), n).blocks)|
      ensures byteBuf == Entries(ObjAt(Vol(), n).blocks)[128 * i..128 * i + 128]
    {
      hide View, Typed, Owns, GoodObjs, NodeOf, Abs, Entries;
      DirObj(Vol(), n);
      ObjBlock(Vol(), n, i);
      EntriesOfBlock(ObjAt(Vol(), n).blocks, i);
      ViewData(disk.image, pinum.direct[i]);
      var buf := disk.ReadBlock(pinum.direct[i]);
      byteBuf := buf.entries;
    }

    /** The first matching entry of one block. */
    static method ScanBlock(byteBuf: DirPage, name: Name) returns (off: int)
      ensures 0 <= off <= 128 && NoMatch(byteBuf, off, name)
      ensures off < 128 ==> Matches(byteBuf[off], name)
    {
      off := 0;
      while off < 128
        invariant 0 <= off <= 128 && NoMatch(byteBuf, off, name)
      {
        var entry := byteBuf[off];
        if entry.inum != -1 && entry.name == name {
          return;
        }
        off := off + 1;
      }
    }

    /** Reads from the start of the object, at most `size` bytes and no more than it has. */
    method Read(inodeNumber: int, size: int) returns (ret: int, buffer: Buffer)
      requires Typed(disk.image) && Consistent(Vol())
      // A stale pointer of an empty object is followed, so it must name a block of the image.
      requires size > 0 && Live(Vol(), inodeNumber) && Vol().inodes[inodeNumber].size == 0 ==>
                 StaleReadable(Vol().inodes[inodeNumber].direct, |disk.image|)
      ensures ReadReturns(Vol(), inodeNumber, size, ret, buffer)
    {
      hide View, Typed, Owns, GoodObjs, NodeOf, Abs, GoodObj, GoodDir, Holds, StaleReadable;
      buffer := Buffer([], []);
      if size <= 0 {
        return -EINVALIDSIZE, buffer;
      }
      var failed, inode := Stat(inodeNumber);
      if failed == -EINVALIDINODE {
        return -EINVALIDINODE, buffer;
      }
      LiveNode(Vol(), inodeNumber);
      var wanted := Min(size, inode.size);
      if wanted > 0 {
        ret, buffer := ReadBlocks(inodeNumber, inode, wanted);
      } else {
        EmptyHolds(inodeNumber, ObjAt(Vol(), inodeNumber));
        ret := ReadNothing(inode);
      }
    }

    /** The copy loop, for an object that is not empty. */
    method ReadBlocks(ghost n: int, inode: Inode, size: int) returns (bytesRead: int, buffer: Buffer)
      requires Typed(disk.image) && Sound(Vol()) && Live(Vol(), n) && inode == Vol().inodes[n]
      requires 0 < size <= inode.size
      ensures bytesRead == size
      ensures n in Abs(Vol()) && Holds(n, Abs(Vol())[n], size, buffer)
    {
      hide View, Typed, Owns, GoodObjs, NodeOf, Abs, GoodObj, Holds;
      LiveNode(Vol(), n);
      ghost var blocks := ObjAt(Vol(), n).blocks;
      GatheredHolds(n, ObjAt(Vol(), n), size);
      var remaining := size;
      bytesRead := 0;
      buffer := Buffer([], []);
      var i := 0;
      while i < 30
        invariant 0 <= i <= 30 && bytesRead == 4096 * i < size && remaining == size - bytesRead
        invariant i <= |blocks| && buffer == Gathered(blocks, size, i)
      {
        var pointer := inode.direct[i];
        BlockAt(n, inode, i);
        if pointer == 0 {
          assert false;
        }
        var tempBuffer := disk.ReadBlock(pointer);
        var copySize := Min(4096, remaining);
        buffer := Copied(buffer, tempBuffer, copySize);
        bytesRead := bytesRead + copySize;
        remaining := remaining - copySize;
        i := i + 1;
        if remaining <= 0 {
          assert i == NumBlocks(size);
          return;
        }
      }
      NumBlocksBounds(inode.size);
      assert false;
    }

    lemma BlockAt(n: int, inode: Inode, i: int)
      requires Typed(disk.image) && Sound(Vol()) && Live(Vol(), n) && inode == Vol().inodes[n]
      requires 0 <= i < 30 && 4096 * i < inode.size
      ensures inode.direct[i] != 0 && 0 <= inode.direct[i] < |disk.image|
      ensures i < |ObjAt(Vol(), n).blocks| && disk.image[inode.direct[i]] == ObjAt(Vol(), n).blocks[i]
    {
      ObjBlock(Vol(), n, i);
      ViewData(disk.image, inode.direct[i]);
    }

    /** The copy loop for an empty object: pointers that are 0 are skipped, the first other one is followed
        and nothing is copied from it. */
    method ReadNothing(inode: Inode) returns (bytesRead: int)
      requires StaleReadable(inode.direct, |disk.image|)
      ensures bytesRead == 0
    {
      bytesRead := 0;
      var i := 0;
      while i < 30
        invariant 0 <= i <= 30 && bytesRead == 0 && forall j :: 0 <= j < i ==> inode.direct[j] == 0
      {
        var pointer := inode.direct[i];
        if pointer != 0 {
          var tempBuffer := disk.ReadBlock(pointer);
          return;
        }
        i := i + 1;
      }
    }

    /** The nested loops that look for a clear bit and set it: block by block, byte by byte, bit by bit.
        The bit found is the lowest clear one of the whole bitmap, and the only one changed. */
    method TakeLowestBit(addr: int, len: nat) returns (found: bool, index: nat)
      requires disk.Valid() && disk.isInTransaction
      requires BytesIn(disk.image, addr, addr + len)
      modifies disk
      ensures disk.Valid() && disk.isInTransaction && disk.Base() == old(disk.Base())
      ensures index == FirstClear(old(BitsAt(disk.image, addr, len)), 0)
      ensures found <==> index < 32768 * len
      ensures disk.image == old(if found then WithBitAt(disk.image, addr, index, true) else disk.image)
    {
      ghost var bits := BitsAt(disk.image, addr, len);
      found := false;
      index := 0;
      var i := 0;
      while !found && i < len
        invariant 0 <= i <= len
        invariant disk.Valid() && disk.isInTransaction && disk.Base() == old(disk.Base())
        invariant !found ==> disk.image == old(disk.image) && index == 32768 * i && AllSet(bits, index)
        invariant found ==> TookBit(old(disk.image), disk.image, addr, len, index)
      {
        var buf := disk.ReadBlock(addr + i);
        found, index := TakeBitInBlock(addr, len, i, index, buf.bytes);
        i := i + 1;
      }
      if found { TookLowest(old(disk.image), addr, len, index); } else { FirstClearIs(bits, index); }
    }

    /** The loop over the bytes of one bitmap block. */
    method TakeBitInBlock(addr: int, len: nat, i: nat, first: nat, byteBuf: Page) returns (found: bool, index: nat)
      requires disk.Valid() && disk.isInTransaction
      requires BytesIn(disk.image, addr, addr + len) && i < len && first == 32768 * i
      requires byteBuf == disk.image[addr + i].bytes
      requires AllSet(BitsAt(disk.image, addr, len), first)
      modifies disk
      ensures disk.Valid() && disk.isInTransaction && disk.Base() == old(disk.Base())
      ensures !found ==>
                && disk.image == old(disk.image) && index == first + 32768
                && AllSet(old(BitsAt(disk.image, addr, len)), index)
      ensures found ==> TookBit(old(disk.image), disk.image, addr, len, index)
    {
      hide Bit, WithBit;
      ghost var bits := BitsAt(disk.image, addr, len);
      found := false;
      index := first;
      var j := 0;
      while !found && j < 4096
        invariant 0 <= j <= 4096
        invariant disk.Valid() && disk.isInTransaction && disk.Base() == old(disk.Base())
        invariant !found ==> disk.image == old(disk.image) && index == first + 8 * j && AllSet(bits, index)
        invariant found ==> TookBit(old(disk.image), disk.image, addr, len, index)
      {
        var k := 0;
        while k < 8
          invariant 0 <= k <= 8
          invariant !found && disk.Valid() && disk.isInTransaction && disk.Base() == old(disk.Base())
          invariant disk.image == old(disk.image) && index == first + 8 * j + k && AllSet(bits, index)
        {
          BitPosition(index, i, j, k);
          if !Bit(byteBuf[j], k) {
            found := true;
            disk.WriteBlock(addr + i, ByteBlock(byteBuf[j := WithBit(byteBuf[j], k, true)]));
            break;
          }
          k := k + 1;
          index := index + 1;
        }
        j := j + 1;
      }
    }

    // The steps that the calls below are made of.  Each changes one field of the volume, inside a
    // transaction whose rollback image stays what it was.

    method AllocateData(super: Super) returns (found: bool, index: nat)
      requires InTransaction() && super == Vol().super
      modifies disk
      ensures InTransaction() && disk.Base() == old(disk.Base())
      ensures index == FirstClear(old(Vol().dbits), 0)
      ensures found <==> index < |old(Vol().dbits)|
      ensures Vol() == old(if found then Vol().(dbits := Vol().dbits[index := true]) else Vol())
    {
      found, index := TakeLowestBit(super.dataBitmapAddr, super.dataBitmapLen);
      hide BitsAt;
      if found { ViewDataBitWrite(old(disk.image), index, true); }
    }

    method AllocateInode(super: Super) returns (found: bool, index: nat)
      requires InTransaction() && super == Vol().super
      modifies disk
      ensures InTransaction() && disk.Base() == old(disk.Base())
      ensures index == FirstClear(old(Vol().ibits), 0)
      ensures found <==> index < |old(Vol().ibits)|
      ensures Vol() == old(if found then Vol().(ibits := Vol().ibits[index := true]) else Vol())
    {
      found, index := TakeLowestBit(super.inodeBitmapAddr, super.inodeBitmapLen);
      hide BitsAt;
      if found { ViewInodeBitWrite(old(disk.image), index, true); }
    }

    /** Clears the bit of the data block that a pointer names. */
    method ReleaseBlock(super: Super, pointer: int)
      requires InTransaction() && super == Vol().super
      requires 0 <= pointer - super.dataRegionAddr < super.numData
      modifies disk
      ensures InTransaction() && disk.Base() == old(disk.Base())
      ensures Vol() == old(Vol().(dbits := Vol().dbits[pointer - super.dataRegionAddr := false]))
    {
      hide View, Bit, WithBit, BitsAt;
      var b := pointer - super.dataRegionAddr;
      ViewDataBitWrite(disk.image, b, false);
      var indexOfBlock := BitmapBlockIndex(b);
      var offsetOfBlock := BitmapOffset(b);
      SameBitPosition(b);
      var buf := disk.ReadBlock(super.dataBitmapAddr + indexOfBlock);
      var byteBuf := buf.bytes;
      byteBuf := byteBuf[offsetOfBlock / 8 := WithBit(byteBuf[offsetOfBlock / 8], offsetOfBlock % 8, false)];
      disk.WriteBlock(super.dataBitmapAddr + indexOfBlock, ByteBlock(byteBuf));
    }

    /** Clears the bit of an inode. */
    method ReleaseInode(super: Super, inum: int)
      requires InTransaction() && super == Vol().super
      requires 0 <= inum < super.numInodes
      modifies disk
      ensures InTransaction() && disk.Base() == old(disk.Base())
      ensures Vol() == old(Vol().(ibits := Vol().ibits[inum := false]))
    {
      hide View, Bit, WithBit, BitsAt;
      ViewInodeBitWrite(disk.image, inum, false);
      var indexOfBitmap := BitmapBlockIndex(inum);
      var offsetOfBitmap := BitmapOffset(inum);
      SameBitPosition(inum);
      var buf := disk.ReadBlock(super.inodeBitmapAddr + indexOfBitmap);
      var byteBuf := buf.bytes;
      byteBuf := byteBuf[offsetOfBitmap / 8 := WithBit(byteBuf[offsetOfBitmap / 8], offsetOfBitmap % 8, false)];
      disk.WriteBlock(super.inodeBitmapAddr + indexOfBitmap, ByteBlock(byteBuf));
    }

    /** Reads an inode's block, changes its slot and writes the block back. */
    method PutInode(super: Super, inum: int, inode: Inode)
      requires InTransaction() && super == Vol().super
      requires 0 <= inum < super.numInodes
      modifies disk
      ensures InTransaction() && disk.Base() == old(disk.Base())
      ensures Vol() == old(Vol().(inodes := Vol().inodes[inum := inode]))
    {
      ViewInodeWrite(disk.image, inum, inode);
      hide View;
      var indexOfBlock := InodeBlockIndex(inum);
      var buf := disk.ReadBlock(super.inodeRegionAddr + indexOfBlock);
      disk.WriteBlock(super.inodeRegionAddr + indexOfBlock, InodeBlock(buf.inodes[InodeBlockOffset(inum) := inode]));
    }

    /** Reads the inode slot as it is on the disk, whether allocated or not. */
    method GetInode(super: Super, inum: int) returns (inode: Inode)
      requires InTransaction() && super == Vol().super
      requires 0 <= inum < super.numInodes
      ensures inode == Vol().inodes[inum]
    {
      ViewInode(disk.image, inum);
      hide View, Bit;
      var buf := disk.ReadBlock(super.inodeRegionAddr + InodeBlockIndex(inum));
      inode := buf.inodes[InodeBlockOffset(inum)];
    }

    /** Writes the data block that a pointer names. */
    method PutBlock(super: Super, pointer: int, block: Block)
      requires InTransaction() && super == Vol().super
      requires 0 <= pointer - super.dataRegionAddr < super.numData
      modifies disk
      ensures InTransaction() && disk.Base() == old(disk.Base())
      ensures Vol() == old(Vol().(data := Vol().data[pointer - super.dataRegionAddr := block]))
    {
      ViewDataWrite(disk.image, pointer - super.dataRegionAddr, block);
      hide View;
      disk.WriteBlock(pointer, block);
    }

    /** Reads the data block that a pointer names. */
    method GetBlock(super: Super, pointer: int) returns (block: Block)
      requires Typed(disk.image) && super == Vol().super
      requires 0 <= pointer - super.dataRegionAddr < super.numData
      ensures block == Vol().data[pointer - super.dataRegionAddr]
    {
      block := disk.ReadBlock(pointer);
    }

    // create

    /** Creates a file or directory, in one transaction; an error leaves every block as it was. */
    method Create(parentInodeNumber: int, typ: int, name: Name) returns (ret: int)
      requires Valid() && IsType(typ)
      modifies disk
      ensures Valid()
      ensures Outcome(Vol(), ret) == old(CreateSpec.Create(Vol(), parentInodeNumber, typ, name))
      ensures ret < 0 ==> disk.image == old(disk.image)
    {
      hide View, Owned, GoodObjs, Namespace.Tree, CreateNew, Namespace.Lookup;
      if name == "" || |name| >= DIR_ENT_NAME_SIZE {
        return -EINVALIDNAME;
      }
      if name == "." || name == ".." {
        return -EINVALIDNAME;
      }
      var failed, pinum := Stat(parentInodeNumber);
      if failed != 0 {
        return -EINVALIDINODE;
      }
      if pinum.typ != UFS_DIRECTORY {
        return -EINVALIDINODE;
      }
      var inum2 := Lookup(parentInodeNumber, name);
      LookupLive(Vol(), parentInodeNumber, name);
      LookupSign(Vol(), parentInodeNumber, name);
      if inum2 >= 0 {
        var inode2;
        failed, inode2 := Stat(inum2);
        if failed != 0 {
          return -EINVALIDINODE;
        }
        if inode2.typ != typ {
          return -EINVALIDTYPE;
        }
        return inum2;
      } else if inum2 != -ENOTFOUND {
        return inum2;
      }
      ret := CreateObject(parentInodeNumber, typ, name, pinum);
    }

    /** The transaction of `create`. */
    method CreateObject(parent: int, typ: int, name: Name, pinum: Inode) returns (ret: int)
      requires Valid() && IsType(typ) && Namespace.GoodName(name)
      requires IsDir(Vol(), parent) && pinum == Vol().inodes[parent]
      requires Namespace.Lookup(Abs(Vol()), parent, name) == -ENOTFOUND
      modifies disk
      ensures Valid()
      ensures Outcome(Vol(), ret) == old(CreateNew(Vol(), parent, typ, name))
      ensures ret < 0 ==> disk.image == old(disk.image)
    {
      hide View, Owned, GoodObjs, Namespace.Tree, AddObject, EnterName, CanEnter, CanAdd, Namespace.Lookup, Abs;
      ghost var v := Vol();
      CreateNewRefines(v, parent, typ, name);
      var super := ReadSuperBlock();
      disk.BeginTransaction();
      var ok, indexOfData, inumNew := AllocateObject(super, parent, typ);
      if !ok {
        disk.Rollback();
        return -ENOTENOUGHSPACE;
      }
      ok := EnterNewName(super, v, parent, pinum, typ, name, inumNew);
      if !ok {
        disk.Rollback();
        return -ENOTENOUGHSPACE;
      }
      InitInode(super, v, parent, typ, name, indexOfData, inumNew);
      disk.Commit();
      return inumNew;
    }

    /** Takes the inode and, for a directory, the data block of a new object, and writes a new directory's
        first block. */
    method AllocateObject(super: Super, parent: int, typ: int) returns (ok: bool, indexOfData: nat, inumNew: nat)
      requires InTransaction() && Sound(Vol()) && IsType(typ) && super == Vol().super
      modifies disk
      ensures InTransaction() && disk.Base() == old(disk.Base())
      ensures ok <==> old(CanAdd(Vol(), FreeInode(Vol()), typ))
      ensures ok ==> inumNew == old(FreeInode(Vol())) && (typ == UFS_DIRECTORY ==> indexOfData == old(FreeData(Vol())))
      ensures ok ==> Vol() == old(AddObject(Vol(), FreeInode(Vol()), typ, parent).(inodes := Vol().inodes))
    {
      hide View, Typed, Owned, GoodObjs, AddObject;
      ghost var v := Vol();
      indexOfData, inumNew := 0, 0;
      var found;
      if typ == UFS_DIRECTORY {
        found, indexOfData := AllocateData(super);
        if !found || super.numData <= indexOfData {
          return false, indexOfData, inumNew;
        }
      }
      found, inumNew := AllocateInode(super);
      if !found || super.numInodes <= inumNew {
        return false, indexOfData, inumNew;
      }
      if typ == UFS_DIRECTORY {
        PutBlock(super, super.dataRegionAddr + indexOfData, NewDirBlock(inumNew, parent));
      }
      AddObjectFields(v, inumNew, typ, parent);
      ok := true;
    }

    /** Enters the new object's name into its parent. */
    method EnterNewName(super: Super, ghost v: Vol, parent: int, pinum: Inode, ghost typ: int, name: Name, inumNew: nat)
      returns (ok: bool)
      requires InTransaction() && super == Vol().super
      requires Consistent(v) && IsType(typ) && CanAdd(v, inumNew, typ) && IsDir(v, parent) && pinum == v.inodes[parent]
      requires Vol() == AddObject(v, inumNew, typ, parent).(inodes := v.inodes)
      modifies disk
      ensures InTransaction() && disk.Base() == old(disk.Base())
      ensures Sound(AddObject(v, inumNew, typ, parent)) && IsDir(AddObject(v, inumNew, typ, parent), parent)
      ensures ok <==> CanEnter(AddObject(v, inumNew, typ, parent), parent)
      ensures ok ==> AllBut(Vol(), EnterName(AddObject(v, inumNew, typ, parent), parent, DirEnt(name, inumNew)),
              inumNew)
                     && Vol().inodes[inumNew] == v.inodes[inumNew]
    {
      hide View, Typed, Owned, GoodObjs, AddObject, EnterName, CanEnter, Packed;
      ghost var v1 := AddObject(v, inumNew, typ, parent);
      DirectoryPacked(v, parent);
      AddObjectKeeps(v, inumNew, typ, parent, parent);
      AddObjectAllBut(v, inumNew, typ, parent);
      ok := Enter(super, v1, inumNew, parent, pinum, DirEnt(name, inumNew));
    }

    /** Appends an entry to a directory, in its last block or in a new one. */
    method Enter(super: Super, ghost v: Vol, ghost i: int, n: int, pinum: Inode, ent: DirEnt) returns (ok: bool)
      requires InTransaction() && super == Vol().super
      requires Sound(v) && IsDir(v, n) && pinum == v.inodes[n] && Packed(n, ObjAt(v, n))
      requires i != n && AllBut(Vol(), v, i)
      modifies disk
      ensures InTransaction() && disk.Base() == old(disk.Base())
      ensures ok <==> CanEnter(v, n)
      ensures ok ==> AllBut(Vol(), EnterName(v, n, ent), i) && Vol().inodes[i] == old(Vol().inodes[i])
    {
      hide View, Typed, Owned, GoodObjs, EnterName, GoodDir, NodeOf, Abs, ObjAt;
      DirObj(v, n);
      var cntOfBlock := NumBlocks(pinum.size);
      var placed, indexOfEntry := PlaceEntry(super, v, i, n, pinum, ent);
      if !placed {
        ok := EnterInNewBlock(super, v, i, n, pinum, ent, cntOfBlock, indexOfEntry);
      } else {
        EnteredInPlace(old(Vol()), v, i, n, ent, Vol().data);
        SizeOfEntries(pinum.size, indexOfEntry);
        if pinum.size < 32 * (1 + indexOfEntry) {
          var inode := GetInode(super, n);
          PutInode(super, n, inode.(size := 32 * (1 + indexOfEntry)));
        }
        ok := true;
      }
    }

    /** The loop that looks for a free place in the directory's blocks, and writes the entry there. */
    method PlaceEntry(super: Super, ghost v: Vol, ghost i: int, n: int, pinum: Inode, ent: DirEnt)
      returns (placed: bool, indexOfEntry: nat)
      requires InTransaction() && super == Vol().super
      requires Sound(v) && IsDir(v, n) && pinum == v.inodes[n] && Packed(n, ObjAt(v, n))
      requires i != n && AllBut(Vol(), v, i)
      modifies disk
      ensures InTransaction() && disk.Base() == old(disk.Base())
      ensures placed <==> HasRoom(ObjAt(v, n))
      ensures indexOfEntry == pinum.size / 32
      ensures Vol() == old(Vol()).(data := Vol().data)
      ensures if placed then Placed(v, n, ent, Vol().data) else Vol() == old(Vol())
    {
      hide View, Typed, Owned, GoodObjs, EnterName, CanEnter, GoodDir, Entries, NodeOf, Abs, ObjAt, HasRoom, Placed;
      DirObj(v, n);
      ghost var o := ObjAt(v, n);
      placed := false;
      indexOfEntry := 0;
      var k := 0;
      while !placed && k < NumBlocks(pinum.size)
        invariant 0 <= k <= NumBlocks(pinum.size)
        invariant InTransaction() && disk.Base() == old(disk.Base())
        invariant !placed ==> Vol() == old(Vol()) && indexOfEntry == 128 * k <= o.size / 32
        invariant placed ==> HasRoom(o) && indexOfEntry == pinum.size / 32
        invariant placed ==> Vol() == old(Vol()).(data := Vol().data) && Placed(v, n, ent, Vol().data)
      {
        var page := GetEntries(super, v, n, pinum, k);
        var j := FindFree(page, pinum.size, indexOfEntry);
        FreePlace(n, o, k, page, j);
        indexOfEntry := indexOfEntry + j;
        if j < 128 {
          placed := true;
          PlacedThere(v, n, ent, k, j);
          PutBlock(super, pinum.direct[k], DirBlock(page[j := ent]));
        }
        k := k + 1;
      }
      RoomLeft(v, n, placed, k);
    }

    /** Block `k` of a directory of a volume that differs from the disk's in inodes only. */
    method GetEntries(super: Super, ghost v: Vol, ghost n: int, pinum: Inode, k: int) returns (page: DirPage)
      requires Typed(disk.image) && super == Vol().super
      requires Sound(v) && IsDir(v, n) && pinum == v.inodes[n] && 0 <= k < NumBlocks(pinum.size)
      requires v.data == Vol().data && v.super == super
      ensures 0 <= k < 30 && GoodDir(n, ObjAt(v, n))
      ensures 0 <= pinum.direct[k] - super.dataRegionAddr < super.numData
      ensures k < |SlotsAt(v, n)| && SlotsAt(v, n)[k] == pinum.direct[k] - super.dataRegionAddr
      ensures v.data[pinum.direct[k] - super.dataRegionAddr] == DirBlock(page)
      ensures 128 * k + 128 <= |Entries(ObjAt(v, n).blocks)|
      ensures page == Entries(ObjAt(v, n).blocks)[128 * k..128 * k + 128]
    {
      hide View, Typed, Owned, GoodObjs, GoodDir, Entries;
      DirBlockOf(v, n, k);
      var buf := GetBlock(super, pinum.direct[k]);
      page := buf.entries;
    }

    /** The first entry of a block that is past the size or unused. */
    static method FindFree(byteBuf: DirPage, size: int, first: nat) returns (j: nat)
      ensures 0 <= j <= 128 && forall t :: 0 <= t < j ==> !FreeAt(byteBuf, size, first, t)
      ensures j < 128 ==> FreeAt(byteBuf, size, first, j)
    {
      j := 0;
      while j < 128
        invariant 0 <= j <= 128 && forall t :: 0 <= t < j ==> !FreeAt(byteBuf, size, first, t)
      {
        if size <= 32 * (first + j) || byteBuf[j].inum == -1 {
          return;
        }
        j := j + 1;
      }
    }

    /** Adds a block to a directory for one more entry, if there is a pointer and a data block for it. */
    method EnterInNewBlock(super: Super, ghost v: Vol, ghost i: int, n: int, pinum: Inode, ent: DirEnt,
        cntOfBlock: int, indexOfEntry: nat)
      returns (ok: bool)
      requires InTransaction() && super == Vol().super
      requires Sound(v) && IsDir(v, n) && pinum == v.inodes[n] && GoodDir(n, ObjAt(v, n)) && !HasRoom(ObjAt(v, n))
      requires cntOfBlock == NumBlocks(pinum.size) && indexOfEntry == pinum.size / 32
      requires i != n && AllBut(Vol(), v, i)
      modifies disk
      ensures InTransaction() && disk.Base() == old(disk.Base())
      ensures ok <==> CanEnter(v, n)
      ensures ok ==> AllBut(Vol(), EnterName(v, n, ent), i) && Vol().inodes[i] == old(Vol().inodes[i])
    {
      hide View, Typed, Owned, GoodObjs, EnterName, GoodDir, HasRoom, FirstClear, ObjAt, NodeOf, Abs;
      DirObj(v, n);
      if DIRECT_PTRS <= cntOfBlock {
        return false;
      }
      var found, indexDataNew := AllocateData(super);
      if !found || super.numData <= indexDataNew {
        return false;
      }
      EnterInNewBlockFields(v, n, ent);
      AllButPut(old(Vol()), v, i, n,
                pinum.(size := pinum.size + 32, direct :=
                    pinum.direct[cntOfBlock := super.dataRegionAddr + indexDataNew]),
                v.dbits[indexDataNew := true], v.data[indexDataNew := NewEntryBlock(ent)]);
      PutBlock(super, super.dataRegionAddr + indexDataNew, NewEntryBlock(ent));
      var inode := GetInode(super, n);
      assert inode == pinum && 32 * (1 + indexOfEntry) == pinum.size + 32;
      inode := inode.(size := 32 * (1 + indexOfEntry),
                      direct := inode.direct[cntOfBlock := super.dataRegionAddr + indexDataNew]);
      PutInode(super, n, inode);
      assert EnterName(v, n, ent).inodes == v.inodes[n := inode];
      ok := true;
    }

    /** Fills in the inode of the new object. */
    method InitInode(super: Super, ghost v: Vol, ghost parent: int, typ: int, ghost name: Name, indexOfData: nat,
        inumNew: nat)
      requires InTransaction() && super == Vol().super
      requires Sound(v) && IsType(typ) && CanAdd(v, inumNew, typ) && IsDir(v, parent)
      requires typ == UFS_DIRECTORY ==> indexOfData == FreeData(v)
      requires Sound(AddObject(v, inumNew, typ, parent)) && IsDir(AddObject(v, inumNew, typ, parent), parent)
      requires CanEnter(AddObject(v, inumNew, typ, parent), parent)
      requires AllBut(Vol(), EnterName(AddObject(v, inumNew, typ, parent), parent, DirEnt(name, inumNew)), inumNew)
      requires Vol().inodes[inumNew] == v.inodes[inumNew]
      modifies disk
      ensures InTransaction() && disk.Base() == old(disk.Base())
      ensures Vol() == EnterName(AddObject(v, inumNew, typ, parent), parent, DirEnt(name, inumNew))
    {
      hide View, Typed, Owned, GoodObjs, AddObject, EnterName, CanEnter;
      NewInodeStays(v, inumNew, typ, parent, DirEnt(name, inumNew));
      var inode := GetInode(super, inumNew);
      if typ == UFS_DIRECTORY {
        PutInode(super, inumNew, Inode(typ, 64, inode.direct[0 := super.dataRegionAddr + indexOfData]));
      } else {
        PutInode(super, inumNew, Inode(typ, 0, inode.direct));
      }
    }

    // write

    /** Replaces the content of a file, in one transaction; an error leaves every block as it was.  Of the
        last block only the bytes of the buffer are defined, the rest is what the block buffer held. */
    method Write(inum2: int, byteBuf2: seq<bv8>, leftover: Page) returns (ret: int)
      requires Valid()
      modifies disk
      ensures Valid()
      ensures Outcome(Vol(), ret) == old(WriteSpec.Write(Vol(), inum2, byteBuf2, leftover))
      ensures ret < 0 ==> disk.image == old(disk.image)
    {
      hide View, Owned, GoodObjs, Namespace.Tree, CanWrite, SetObj, Abs;
      var size := |byteBuf2|;
      if size <= 0 {
        return -EINVALIDSIZE;
      }
      var cntOfBlock := NumBlocks(size);
      if DIRECT_PTRS < cntOfBlock {
        return -ENOTENOUGHSPACE;
      }
      var failed, inode := Stat(inum2);
      if failed != 0 {
        return -EINVALIDINODE;
      }
      if inode.typ != UFS_REGULAR_FILE {
        return -EWRITETODIR;
      }
      ret := WriteFile(inum2, inode, byteBuf2, leftover);
    }

    /** The transaction of `write`. */
    method WriteFile(n: int, inode: Inode, buf: seq<bv8>, leftover: Page) returns (ret: int)
      requires Valid() && IsFile(Vol(), n) && inode == Vol().inodes[n]
      requires 0 < |buf| && NumBlocks(|buf|) <= DIRECT_PTRS
      modifies disk
      ensures Valid()
      ensures Outcome(Vol(), ret) == old(WriteSpec.Write(Vol(), n, buf, leftover))
      ensures ret < 0 ==> disk.image == old(disk.image)
    {
      hide View, Owned, GoodObjs, Namespace.Tree, CanWrite, SetObj, MayHold, Abs, WrittenInode, WrittenBits, Reassign,
          PutBlocks;
      ghost var v := Vol();
      WriteRefines(v, n, buf, leftover);
      var super := ReadSuperBlock();
      disk.BeginTransaction();
      var ok, direct := Resize(super, v, n, inode, |buf|);
      if !ok {
        disk.Rollback();
        return -ENOTENOUGHSPACE;
      }
      WrittenFields(v, n, buf, leftover);
      PutInode(super, n, Inode(inode.typ, |buf|, direct));
      WriteContent(super, v, n, direct, buf, leftover);
      disk.Commit();
      return |buf|;
    }

    /** Adds or frees blocks until the file has as many as it needs. */
    method Resize(super: Super, ghost v: Vol, n: int, inode: Inode, size: nat) returns (ok: bool, direct: Pointers)
      requires InTransaction() && super == Vol().super && Vol() == v
      requires Sound(v) && IsFile(v, n) && inode == v.inodes[n] && NumBlocks(size) <= 30
      modifies disk
      ensures InTransaction() && disk.Base() == old(disk.Base())
      ensures ok <==> CanWrite(v, n, size)
      ensures ok ==>
                && Vol() == v.(dbits := WrittenBits(v, n, size))
                && Inode(inode.typ, size, direct) == WrittenInode(v, n, size)
    {
      hide View, Typed, Owns, GoodObjs, Reassign, TakeClear, AfterTaking, NewPointers, NodeOf, Abs;
      LiveNode(v, n);
      var now, need := NumBlocks(inode.size), NumBlocks(size);
      if now < need {
        ok, direct := GrowBlocks(super, v, inode, now, need);
      } else {
        SlotsInRange(v, n);
        direct := ShrinkBlocks(super, v, SlotsAt(v, n), inode, now, need);
        ok := true;
      }
    }

    /** Takes the lowest free block for each block that is missing. */
    method GrowBlocks(super: Super, ghost v: Vol, inode: Inode, now: int, need: int)
        returns (ok: bool, direct: Pointers)
      requires InTransaction() && super == Vol().super && Vol() == v
      requires 0 <= now < need <= 30
      modifies disk
      ensures InTransaction() && disk.Base() == old(disk.Base())
      ensures ok <==> AllBelow(TakeClear(v.dbits, need - now), super.numData)
      ensures super.numData <= |v.dbits| && (ok <==> Clear(v.dbits, super.numData) >= need - now)
      ensures ok ==> Vol() == v.(dbits := AfterTaking(v.dbits, need - now))
      ensures ok ==> direct == NewPointers(inode.direct, now, need, TakeClear(v.dbits, need - now),
              super.dataRegionAddr)
    {
      hide View, Typed, Reassign, TakeClear, AfterTaking, FirstClear;
      direct := inode.direct;
      TakeNone(v.dbits);
      TakeClearFits(v.dbits, need - now, super.numData);
      GrowStart(direct, now, super.dataRegionAddr);
      TakeEmpty(v.dbits);
      var x := now;
      while x < need
        invariant now <= x <= need
        invariant InTransaction() && disk.Base() == old(disk.Base())
        invariant Vol() == v.(dbits := AfterTaking(v.dbits, x - now))
        invariant AllBelow(TakeClear(v.dbits, x - now), super.numData)
        invariant direct == GrownTo(inode.direct, now, x, TakeClear(v.dbits, x - now), super.dataRegionAddr)
      {
        TakeNext(v.dbits, x - now);
        var found, indexOfData := AllocateData(super);
        if !found || super.numData <= indexOfData {
          TakeFails(v.dbits, x - now, need - now, super.numData);
          return false, direct;
        }
        GrowStep(inode.direct, now, x, TakeClear(v.dbits, x - now), indexOfData, super.dataRegionAddr);
        direct := direct[x := super.dataRegionAddr + indexOfData];
        x := x + 1;
      }
      ok := true;
    }

    /** Frees the blocks from `need` on. */
    method ShrinkBlocks(super: Super, ghost v: Vol, ghost slots: seq<int>, inode: Inode, now: int, need: int)
        returns (direct: Pointers)
      requires InTransaction() && super == Vol().super && Vol() == v
      requires 0 <= need <= now <= 30 && |slots| == now && InRange(v, slots)
      requires forall k :: 0 <= k < now ==> slots[k] == inode.direct[k] - super.dataRegionAddr
      modifies disk
      ensures InTransaction() && disk.Base() == old(disk.Base())
      ensures Vol() == v.(dbits := Reassign(v.dbits, slots[need..], []))
      ensures direct == NewPointers(inode.direct, now, need, [], super.dataRegionAddr)
    {
      hide View, Typed, Reassign;
      direct := inode.direct;
      FreeStart(v.dbits, slots, need);
      ShrinkStart(direct, need);
      var x := need;
      while x < now
        invariant need <= x <= now
        invariant InTransaction() && disk.Base() == old(disk.Base())
        invariant Vol() == v.(dbits := Reassign(v.dbits, slots[need..x], []))
        invariant direct == ShrunkTo(inode.direct, need, x)
      {
        FreeStep(v.dbits, slots, need, x);
        ShrinkStep(inode.direct, need, x);
        ReleaseBlock(super, direct[x]);
        direct := direct[x := NO_BLOCK];
        x := x + 1;
      }
      assert slots[need..now] == slots[need..];
    }

    /** The loop that copies the buffer block by block. */
    method WriteContent(super: Super, ghost v: Vol, ghost n: int, direct: Pointers, buf: seq<bv8>, leftover: Page)
      requires InTransaction() && super == Vol().super
      requires Sound(v) && IsFile(v, n) && NumBlocks(|buf|) <= 30 && MayHold(v, n, WrittenInode(v, n, |buf|))
      requires direct == WrittenInode(v, n, |buf|).direct && Vol().data == v.data && v.super == super
      modifies disk
      ensures InTransaction() && disk.Base() == old(disk.Base())
      ensures Vol() == old(Vol()).(data :=
                PutBlocks(v.data, Slots(v, WrittenInode(v, n, |buf|)), FileBlocks(buf, leftover)))
    {
      hide View, Typed, Owned, GoodObjs, PutBlocks, FileBlock;
      ghost var slots, blocks := Slots(v, WrittenInode(v, n, |buf|)), FileBlocks(buf, leftover);
      PutNone(v.data, slots, blocks);
      var uncopyBytes := |buf|;
      var x := 0;
      while uncopyBytes > 0 && x < NumBlocks(|buf|)
        invariant 0 <= x <= NumBlocks(|buf|)
        invariant uncopyBytes == if 4096 * x <= |buf| then |buf| - 4096 * x else 0
        invariant InTransaction() && disk.Base() == old(disk.Base())
        invariant Vol() == old(Vol()).(data := PutBlocks(v.data, slots[..x], blocks[..x]))
      {
        PutNext(v.data, slots, blocks, x);
        PutBlock(super, direct[x], FileBlock(buf, leftover, x));
        uncopyBytes := if 4096 <= uncopyBytes then uncopyBytes - 4096 else 0;
        x := x + 1;
      }
      assert slots[..x] == slots && blocks[..x] == blocks;
    }

    // unlink

    /** Removes an entry and the object it names, in one transaction; an error leaves every block as it was. */
    method Unlink(parentInodeNumber: int, name: Name) returns (ret: int)
      requires Valid()
      modifies disk
      ensures Valid()
      ensures Outcome(Vol(), ret) == old(UnlinkSpec.Unlink(Vol(), parentInodeNumber, name))
      ensures ret < 0 ==> disk.image == old(disk.image)
    {
      hide View, Owned, GoodObjs, Namespace.Tree, RemoveObject, Namespace.Find;
      if name == "." || name == ".." {
        return -EUNLINKNOTALLOWED;
      }
      if name == "" {
        return -EINVALIDNAME;
      }
      var failed, pinum := Stat(parentInodeNumber);
      if failed != 0 {
        return -EINVALIDINODE;
      }
      if pinum.typ != UFS_DIRECTORY {
        return -EINVALIDINODE;
      }
      DirObj(Vol(), parentInodeNumber);
      if pinum.size < 32 * 2 {
        return -EINVALIDINODE;
      }
      ret := UnlinkEntry(parentInodeNumber, name, pinum);
    }

    /** The transaction of `unlink`. */
    method UnlinkEntry(n: int, name: Name, pinum: Inode) returns (ret: int)
      requires Valid() && IsDir(Vol(), n) && pinum == Vol().inodes[n] && name != "." && name != ".." && name != ""
      modifies disk
      ensures Valid()
      ensures Outcome(Vol(), ret) == old(UnlinkSpec.Unlink(Vol(), n, name))
      ensures ret < 0 ==> disk.image == old(disk.image)
    {
      hide View, Owned, GoodObjs, Namespace.Tree, RemoveObject, Namespace.Find, Namespace.Removable, GoodDir, NodeOf,
          Entries;
      ghost var v := Vol();
      UnlinkRefines(v, n, name);
      DirObj(v, n);
      var super := ReadSuperBlock();
      disk.BeginTransaction();
      var pEntry := LoadEntries(super, n, pinum);
      var countOfEntries := pinum.size / 32;
      var indexOfEntry := FindEntry(pEntry, countOfEntries, name);
      FoundEntry(v, n, name, indexOfEntry);
      if countOfEntries <= indexOfEntry || pEntry[indexOfEntry].inum < 0 {
        disk.Rollback();
        return -EINVALIDNAME;
      }
      var inumNew := pEntry[indexOfEntry].inum;
      var failed, inode2 := Stat(inumNew);
      if failed != 0 {
        // The code rolls back here, but an entry never names an inode that is not allocated.
        assert false;
      }
      var blocked := HasEntries(super, inumNew, inode2);
      if blocked {
        disk.Rollback();
        return -EDIRNOTEMPTY;
      }
      RemoveAndFree(super, v, n, pinum, pEntry, indexOfEntry, inumNew, inode2);
      disk.Commit();
      return 0;
    }

    /** All entries of a directory's blocks, used or not. */
    method LoadEntries(super: Super, ghost n: int, pinum: Inode) returns (pEnts: seq<DirEnt>)
      requires Typed(disk.image) && super == Vol().super
      requires Sound(Vol()) && IsDir(Vol(), n) && pinum == Vol().inodes[n]
      ensures GoodDir(n, ObjAt(Vol(), n)) && pEnts == Entries(ObjAt(Vol(), n).blocks)
    {
      hide View, Typed, Owned, GoodObjs, Entries, NodeOf, Abs;
      DirObj(Vol(), n);
      ghost var es := Entries(ObjAt(Vol(), n).blocks);
      pEnts := [];
      var i := 0;
      while i < NumBlocks(pinum.size)
        invariant 0 <= i <= NumBlocks(pinum.size)
        invariant 128 * i <= |es| && pEnts == es[..128 * i]
      {
        var page := ReadDirBlock(n, pinum, i);
        PrefixGrows(es, i, page);
        pEnts := pEnts + page;
        i := i + 1;
      }
      assert es[..128 * i] == es;
    }

    /** The first used entry of that name below the directory's size, or the count of entries. */
    static method FindEntry(pEntry: seq<DirEnt>, countOfEntries: nat, name: Name) returns (indexOfEntry: nat)
      requires countOfEntries <= |pEntry|
      ensures indexOfEntry <= countOfEntries && NoMatch(pEntry, indexOfEntry, name)
      ensures indexOfEntry < countOfEntries ==> Matches(pEntry[indexOfEntry], name)
    {
      indexOfEntry := 0;
      while indexOfEntry < countOfEntries
        invariant indexOfEntry <= countOfEntries && NoMatch(pEntry, indexOfEntry, name)
      {
        if pEntry[indexOfEntry].inum != -1 && name == pEntry[indexOfEntry].name {
          return;
        }
        indexOfEntry := indexOfEntry + 1;
      }
    }

    /** Whether the object is a directory with an entry other than the dots. */
    method HasEntries(super: Super, n: int, inode2: Inode) returns (bQuit: bool)
      requires Typed(disk.image) && super == Vol().super
      requires Consistent(Vol()) && Live(Vol(), n) && inode2 == Vol().inodes[n]
      ensures n in Abs(Vol())
      ensures bQuit <==> !Namespace.Removable(Abs(Vol()), n)
    {
      hide View, Typed, Owned, GoodObjs, Namespace.Tree, Entries, NodeOf, OnlyDots, GoodDir, Abs;
      LiveNode(Vol(), n);
      if inode2.typ != UFS_DIRECTORY {
        return false;
      }
      DirectoryEmpty(Vol(), n);
      bQuit := ScanForEntries(n, inode2);
    }

    method ScanForEntries(ghost n: int, inode2: Inode) returns (bQuit: bool)
      requires Typed(disk.image) && Sound(Vol()) && IsDir(Vol(), n) && inode2 == Vol().inodes[n]
      ensures GoodDir(n, ObjAt(Vol(), n))
      ensures bQuit <==> !OnlyDots(Entries(ObjAt(Vol(), n).blocks), inode2.size / 32)
    {
      hide View, Typed, Owned, GoodObjs, Entries, NodeOf, OnlyDots, Abs;
      DirObj(Vol(), n);
      ghost var es := Entries(ObjAt(Vol(), n).blocks);
      bQuit := false;
      var idxEntry := 0;
      OnlyDotsYet(es);
      var i := 0;
      while !bQuit && i < NumBlocks(inode2.size)
        invariant 0 <= i <= NumBlocks(inode2.size)
        invariant !bQuit ==> idxEntry == (if 128 * i <= inode2.size / 32 then 128 * i else inode2.size / 32)
        invariant !bQuit ==> OnlyDots(es, idxEntry)
        invariant bQuit ==> !OnlyDots(es, inode2.size / 32)
      {
        var page := ReadDirBlock(n, inode2, i);
        assert idxEntry == 128 * i;
        var j;
        bQuit, j := ScanForEntry(page, inode2.size, idxEntry);
        OnlyDotsInBlock(es, i, page, inode2.size / 32, j, bQuit);
        idxEntry := idxEntry + j;
        i := i + 1;
      }
    }

    /** Looks through one block, up to the directory's size, for an entry other than the dots. */
    static method ScanForEntry(byteBuf: DirPage, size: int, first: nat) returns (bQuit: bool, j: nat)
      requires size % 32 == 0 && size / 32 >= first
      ensures 0 <= j <= 128 && first + j <= size / 32
      ensures forall t :: 0 <= t < j ==> !NonDot(byteBuf[t])
      ensures bQuit ==> j < 128 && first + j < size / 32 && NonDot(byteBuf[j])
      ensures !bQuit ==> j == 128 || first + j == size / 32
    {
      bQuit := false;
      j := 0;
      while j < 128
        invariant 0 <= j <= 128 && first + j <= size / 32 && !bQuit
        invariant forall t :: 0 <= t < j ==> !NonDot(byteBuf[t])
      {
        if size <= 32 * (first + j) {
          return;
        }
        if byteBuf[j].inum != -1 && byteBuf[j].name != "." && byteBuf[j].name != ".." {
          return true, j;
        }
        j := j + 1;
      }
    }

    /** Moves the later entries down, gives back the last block if it is empty now, and frees the object. */
    method RemoveAndFree(super: Super, ghost v: Vol, n: int, pinum: Inode, pEntry: seq<DirEnt>, indexOfEntry: nat,
        inumNew: int, inode2: Inode)
      requires InTransaction() && super == Vol().super && Vol() == v
      requires Consistent(v) && indexOfEntry >= 2 && InDirectory(v, n, indexOfEntry - 2) && pinum == v.inodes[n]
      requires GoodDir(n, ObjAt(v, n)) && pEntry == Entries(ObjAt(v, n).blocks)
      requires n in Abs(v) && Abs(v)[n].DirNode? && indexOfEntry - 2 < |Abs(v)[n].entries|
      requires inumNew == Abs(v)[n].entries[indexOfEntry - 2].inum && Live(v, inumNew) && inode2 == v.inodes[inumNew]
      modifies disk
      ensures InTransaction() && disk.Base() == old(disk.Base())
      ensures Vol() == RemoveObject(v, n, indexOfEntry - 2)
    {
      hide View, Typed, Owned, GoodObjs, Namespace.Tree, GoodDir, Entries, LoseEntry, DropObj, NodeOf, Abs;
      EntryTarget(v, n, indexOfEntry - 2);
      LoseEntryKeeps(v, n, indexOfEntry - 2, inumNew);
      RemoveFromDirectory(super, v, n, pinum, pEntry, indexOfEntry);
      FreeObject(super, LoseEntry(v, n, indexOfEntry - 2), inumNew, inode2);
    }

    /** Rewrites the directory without the entry. */
    method RemoveFromDirectory(super: Super, ghost v: Vol, n: int, pinum: Inode, pEntry: seq<DirEnt>, indexOfEntry: nat)
      requires InTransaction() && super == Vol().super && Vol() == v
      requires Sound(v) && indexOfEntry >= 2 && InDirectory(v, n, indexOfEntry - 2) && pinum == v.inodes[n]
      requires GoodDir(n, ObjAt(v, n)) && pEntry == Entries(ObjAt(v, n).blocks)
      modifies disk
      ensures InTransaction() && disk.Base() == old(disk.Base())
      ensures Vol() == LoseEntry(v, n, indexOfEntry - 2)
    {
      hide View, Typed, Owned, GoodObjs, GoodDir, Entries, LoseEntry, ShrunkBits, NodeOf, Abs, ObjAt, SlotsAt, Slots,
          ShrunkInode, RemoveEntry, PutBlocks;
      DirObj(v, n);
      LoseEntryParts(v, n, indexOfEntry - 2);
      LoseEntryFields(v, n, indexOfEntry - 2);
      EntryBounds(n, ObjAt(v, n));
      SlotsAtIs(v, n);
      ShrinkByOne(pinum.size);
      var countOfEntries := pinum.size / 32 - 1;
      var moved := pEntry;
      if indexOfEntry != countOfEntries {
        moved := pEntry[..indexOfEntry] + pEntry[indexOfEntry + 1..countOfEntries + 1] + pEntry[countOfEntries..];
      }
      moved := moved[countOfEntries := moved[countOfEntries].(inum := -1)];
      SqueezeMoves(pEntry, indexOfEntry, countOfEntries + 1);
      WriteEntries(super, v, n, pinum, indexOfEntry, moved, NumBlocks(32 * countOfEntries));
      var pinum' := ReleaseLast(super, v, n, pinum, NumBlocks(32 * countOfEntries));
      PutInode(super, n, pinum');
    }

    /** Writes back the blocks that still hold entries. */
    method WriteEntries(super: Super, ghost v: Vol, ghost n: int, pinum: Inode, ghost index: nat, moved: seq<DirEnt>,
        cntOfBlock: int)
      requires InTransaction() && super == Vol().super && Vol() == v
      requires Sound(v) && index >= 2 && InDirectory(v, n, index - 2) && pinum == v.inodes[n]
      requires GoodDir(n, ObjAt(v, n)) && index < ObjAt(v, n).size / 32 && ObjAt(v, n).size == pinum.size
      requires moved == Squeeze(Entries(ObjAt(v, n).blocks), index, pinum.size / 32)
      requires cntOfBlock == NumBlocks(pinum.size - 32) <= |SlotsAt(v, n)|
      modifies disk
      ensures InTransaction() && disk.Base() == old(disk.Base())
      ensures InRange(v, SlotsAt(v, n)[..cntOfBlock]) && |RemoveEntry(n, ObjAt(v, n), index).blocks| == cntOfBlock
      ensures Vol() == v.(data :=
                PutBlocks(v.data, SlotsAt(v, n)[..cntOfBlock], RemoveEntry(n, ObjAt(v, n), index).blocks))
    {
      hide View, Typed, Owned, GoodObjs, GoodDir, Entries, PutBlocks, RemoveEntry, Squeeze, NodeOf, Abs, ObjAt,
          SlotsAt, NumBlocks;
      EntryBounds(n, ObjAt(v, n));
      RemovedBlocks(n, ObjAt(v, n), index);
      SlotsInRange(v, n);
      ghost var slots, blocks := SlotsAt(v, n)[..cntOfBlock], RemoveEntry(n, ObjAt(v, n), index).blocks;
      PutNone(v.data, slots, blocks);
      var i := 0;
      while i < cntOfBlock
        invariant 0 <= i <= cntOfBlock
        invariant InTransaction() && disk.Base() == old(disk.Base())
        invariant Vol() == v.(data := PutBlocks(v.data, slots[..i], blocks[..i]))
      {
        PutNext(v.data, slots, blocks, i);
        WrittenBlock(v, n, index, i);
        PutBlock(super, pinum.direct[i], DirBlock(moved[128 * i..128 * i + 128]));
        i := i + 1;
      }
      assert slots[..i] == slots && blocks[..i] == blocks;
    }

    /** Gives back the last block if the directory no longer needs it. */
    method ReleaseLast(super: Super, ghost v: Vol, ghost n: int, pinum: Inode, cntOfBlock: int) returns (pinum': Inode)
      requires InTransaction() && super == Vol().super
      requires Sound(v) && IsDir(v, n) && pinum == v.inodes[n] && 64 <= pinum.size <= 122880
      requires cntOfBlock == NumBlocks(pinum.size - 32) && Vol().dbits == v.dbits && v.super == super
      modifies disk
      ensures InTransaction() && disk.Base() == old(disk.Base())
      ensures Vol() == old(Vol()).(dbits := ShrunkBits(v, n)) && pinum' == ShrunkInode(pinum)
    {
      hide View, Typed, Owns, GoodObjs, NodeOf, Abs, GoodDir, ObjAt;
      DirObj(v, n);
      SlotsInRange(v, n);
      LiveGood(v, n);
      ShrinkByOne(pinum.size);
      pinum' := pinum.(size := pinum.size - 32);
      if NumBlocks(pinum.size) != cntOfBlock {
        assert SlotsAt(v, n)[cntOfBlock] == pinum.direct[cntOfBlock] - super.dataRegionAddr;
        ReleaseBlock(super, pinum.direct[cntOfBlock]);
        pinum' := pinum'.(direct := pinum.direct[cntOfBlock := NO_BLOCK]);
      }
    }

    /** Frees the blocks and the inode of an object; the inode keeps its content. */
    method FreeObject(super: Super, ghost v: Vol, c: int, inode2: Inode)
      requires InTransaction() && super == Vol().super && Vol() == v
      requires Sound(v) && Live(v, c) && inode2 == v.inodes[c]
      modifies disk
      ensures InTransaction() && disk.Base() == old(disk.Base())
      ensures Vol() == DropObj(v, c)
    {
      hide View, Typed, Owned, GoodObjs, Reassign;
      LiveGood(v, c);
      SlotsInRange(v, c);
      ghost var slots := SlotsAt(v, c);
      FreeStart(v.dbits, slots, 0);
      var i := 0;
      while i < NumBlocks(inode2.size)
        invariant 0 <= i <= NumBlocks(inode2.size)
        invariant InTransaction() && disk.Base() == old(disk.Base())
        invariant Vol() == v.(dbits := Reassign(v.dbits, slots[0..i], []))
      {
        FreeStep(v.dbits, slots, 0, i);
        ReleaseBlock(super, inode2.direct[i]);
        i := i + 1;
      }
      assert slots[0..i] == slots;
      ReleaseInode(super, c);
    }
  }

  lemma PrefixGrows(es: seq<DirEnt>, i: nat, page: DirPage)
    requires 128 * i + 128 <= |es| && page == es[128 * i..128 * i + 128]
    ensures es[..128 * i] + page == es[..128 * (i + 1)]
  {
  }

  lemma OnlyDotsYet(es: seq<DirEnt>)
    ensures OnlyDots(es, 0)
  {
  }

  lemma OnlyDotsInBlock(es: seq<DirEnt>, i: nat, page: DirPage, count: int, j: int, bQuit: bool)
    requires 128 * i + 128 <= |es| && page == es[128 * i..128 * i + 128] && OnlyDots(es, 128 * i)
    requires 0 <= j <= 128 && 128 * i + j <= count && forall t :: 0 <= t < j ==> !NonDot(page[t])
    requires bQuit ==> j < 128 && 128 * i + j < count && NonDot(page[j])
    ensures OnlyDots(es, 128 * i + j)
    ensures bQuit ==> !OnlyDots(es, count)
  {
    forall e | 0 <= e < 128 * i + j
      ensures !NonDot(es[e])
    {
      assert e >= 128 * i ==> es[e] == page[e - 128 * i];
    }
    if bQuit {
      assert NonDot(es[128 * i + j]);
    }
  }

  lemma EntryBounds(n: int, o: Obj)
    requires GoodDir(n, o)
    ensures 2 <= o.size / 32 <= |Entries(o.blocks)|
  {
    NumBlocksBounds(o.size);
  }

  /** Moving the entries behind `e` down one place and marking the last place unused. */
  lemma SqueezeMoves(es: seq<DirEnt>, e: int, count: int)
    requires 0 <= e < count <= |es|
    ensures var moved := if e != count - 1 then es[..e] + es[e + 1..count] + es[count - 1..] else es;
            |moved| == |es| && moved[count - 1 := moved[count - 1].(inum := -1)] == Squeeze(es, e, count)
  {
  }

  /** The scan bounded by the directory's size finds what the directory says. */
  lemma FoundEntry(v: Vol, n: int, name: Name, index: int)
    requires Consistent(v) && IsDir(v, n) && name != "." && name != ".."
    requires GoodDir(n, ObjAt(v, n)) && 0 <= index <= v.inodes[n].size / 32
    requires NoMatch(Entries(ObjAt(v, n).blocks), index, name)
    requires index < v.inodes[n].size / 32 ==> Matches(Entries(ObjAt(v, n).blocks)[index], name)
    ensures n in Abs(v) && Abs(v)[n].DirNode? && 2 <= index && |Entries(ObjAt(v, n).blocks)| >= v.inodes[n].size / 32
    ensures Namespace.Find(Abs(v)[n].entries, name) == if index == v.inodes[n].size / 32 then -1 else index - 2
    ensures index < v.inodes[n].size / 32 ==>
              && InDirectory(v, n, index - 2) && index - 2 < |Abs(v)[n].entries|
              && Entries(ObjAt(v, n).blocks)[index].inum == Abs(v)[n].entries[index - 2].inum >= 0
              && Live(v, Abs(v)[n].entries[index - 2].inum)
  {
    hide Owns, GoodObjs, Namespace.Tree, GoodDir, Entries, NoMatch, Matches, Namespace.Lookup;
    DirObj(v, n);
    ScansAgree(Abs(v), n, ObjAt(v, n), name, index);
    if index < v.inodes[n].size / 32 {
      EntryTarget(v, n, index - 2);
    }
  }

  /** Entry `ent` is in place in the data blocks of directory `n`. */
  ghost predicate Placed(v: Vol, n: int, ent: DirEnt, data: seq<Block>)
    requires Sound(v) && IsDir(v, n)
  {
    CanEnter(v, n)
    && EnterName(v, n, ent) == v.(inodes := v.inodes[n := v.inodes[n].(size := v.inodes[n].size + 32)], data := data)
  }

  lemma EnteredInPlace(w: Vol, v: Vol, i: int, n: int, ent: DirEnt, data: seq<Block>)
    requires Sound(v) && IsDir(v, n) && i != n && AllBut(w, v, i) && Placed(v, n, ent, data)
    ensures CanEnter(v, n) && w.inodes[n] == v.inodes[n]
    ensures var w' := w.(inodes := w.inodes[n := v.inodes[n].(size := v.inodes[n].size + 32)], data := data);
            AllBut(w', EnterName(v, n, ent), i) && w'.inodes[i] == w.inodes[i]
  {
    hide Owns, GoodObjs, EnterName, CanEnter;
    AllButPut(w, v, i, n, v.inodes[n].(size := v.inodes[n].size + 32), v.dbits, data);
  }

  lemma SizeOfEntries(size: int, count: int)
    requires size % 32 == 0 && count == size / 32
    ensures 32 * (1 + count) == size + 32
  {
  }

  lemma DirBlockOf(v: Vol, n: int, k: int)
    requires Sound(v) && IsDir(v, n) && 0 <= k < NumBlocks(v.inodes[n].size)
    ensures 0 <= k < 30 && GoodDir(n, ObjAt(v, n))
    ensures var b := v.inodes[n].direct[k] - v.super.dataRegionAddr;
            && 0 <= b < v.super.numData && v.data[b].DirBlock?
            && k < |SlotsAt(v, n)| && SlotsAt(v, n)[k] == b
            && 128 * k + 128 <= |Entries(ObjAt(v, n).blocks)|
            && v.data[b].entries == Entries(ObjAt(v, n).blocks)[128 * k..128 * k + 128]
  {
    hide Owns, GoodObjs, Entries, NodeOf, Abs;
    DirObj(v, n);
    ObjBlock(v, n, k);
    EntriesOfBlock(ObjAt(v, n).blocks, k);
  }

  lemma PlacedThere(v: Vol, n: int, ent: DirEnt, k: int, j: int)
    requires Sound(v) && IsDir(v, n) && 0 <= k < NumBlocks(v.inodes[n].size) && 0 <= j < 128
    requires GoodDir(n, ObjAt(v, n)) && ObjAt(v, n).size / 32 == 128 * k + j
    ensures HasRoom(ObjAt(v, n)) && k < |SlotsAt(v, n)| && 0 <= SlotsAt(v, n)[k] < |v.data|
    ensures v.data[SlotsAt(v, n)[k]].DirBlock?
    ensures var b := SlotsAt(v, n)[k];
            Placed(v, n, ent, v.data[b := DirBlock(v.data[b].entries[j := ent])])
  {
    hide Owns, GoodObjs, Entries, NodeOf, Abs, GoodDir, EnterName, CanEnter;
    DirObj(v, n);
    EnterInRoomFields(v, n, ent, k, j);
  }

  /** The scan for a free place misses only if there is none. */
  lemma RoomLeft(v: Vol, n: int, placed: bool, k: int)
    requires Sound(v) && IsDir(v, n)
    requires placed ==> HasRoom(ObjAt(v, n))
    requires !placed ==> k == NumBlocks(v.inodes[n].size) && 128 * k <= ObjAt(v, n).size / 32
    ensures placed <==> HasRoom(ObjAt(v, n))
    ensures !placed ==> 128 * k == v.inodes[n].size / 32
  {
    DirObj(v, n);
  }

  lemma NewInodeStays(v: Vol, i: int, typ: int, parent: int, ent: DirEnt)
    requires Sound(v) && IsType(typ) && CanAdd(v, i, typ) && IsDir(v, parent)
    requires Sound(AddObject(v, i, typ, parent)) && IsDir(AddObject(v, i, typ, parent), parent)
    requires CanEnter(AddObject(v, i, typ, parent), parent)
    ensures EnterName(AddObject(v, i, typ, parent), parent, ent).inodes[i] == NewInode(v, i, typ)
    ensures EnterName(AddObject(v, i, typ, parent), parent, ent).super == v.super
  {
    hide Owns, GoodObjs, GoodDir;
    NewObjectFits(v, i, typ, parent);
    AddObjectFields(v, i, typ, parent);
  }

  lemma LookupSign(v: Vol, n: int, name: Name)
    requires Consistent(v)
    ensures var r := Namespace.Lookup(Abs(v), n, name);
            r >= 0 || r == -ENOTFOUND || r == -EINVALIDINODE
  {
    Namespace.LookupIn(Abs(v), n, name);
  }

  ghost predicate StaleReadable(direct: Pointers, size: nat) {
    forall i :: 0 <= i < 30 && direct[i] != 0 && (forall j :: 0 <= j < i ==> direct[j] == 0) ==> 0 <= direct[i] < size
  }

  lemma EmptyHolds(n: int, o: Obj)
    requires GoodObj(n, o) && o.size <= 0
    ensures o.size == 0 && Holds(n, NodeOf(n, o), 0, Buffer([], []))
  {
  }

  ghost predicate AllSet(bits: seq<bool>, n: nat) {
    n <= |bits| && forall m :: 0 <= m < n ==> bits[m]
  }

  /** The first clear bit, `n`, has been set, and nothing else. */
  ghost predicate TookBit(img: seq<Block>, img': seq<Block>, addr: int, len: nat, n: nat)
    requires BytesIn(img, addr, addr + len)
  {
    && n < 32768 * len
    && AllSet(BitsAt(img, addr, len), n) && !BitsAt(img, addr, len)[n]
    && img' == WithBitAt(img, addr, n, true)
  }

  lemma TookLowest(img: seq<Block>, addr: int, len: nat, n: nat)
    requires BytesIn(img, addr, addr + len)
    requires n < 32768 * len && AllSet(BitsAt(img, addr, len), n) && !BitsAt(img, addr, len)[n]
    ensures FirstClear(BitsAt(img, addr, len), 0) == n
  {
    FirstClearIs(BitsAt(img, addr, len), n);
  }

  lemma SameBitPosition(n: nat)
    ensures BitmapOffset(n) / 8 == n % 32768 / 8 && BitmapOffset(n) % 8 == n % 8
  {
  }
}
