/** The on-disk structures and constants of the file system.

    A disk block is seen through one of four typed views, the members of the C unions that the
    file system code reads and writes blocks through.  Sizes are written as literals: a block has
    4096 bytes, holding 32768 bits, 32 inodes of 128 bytes or 128 directory entries of 32 bytes. */
module Ufs {

  const UFS_DIRECTORY := 0
  const UFS_REGULAR_FILE := 1
  const DIRECT_PTRS := 30
  const DIR_ENT_NAME_SIZE := 28

  // The value -1 stored in an unsigned block pointer.
  const NO_BLOCK := 0xFFFF_FFFF

  const ENOTENOUGHSPACE := 1
  const EDIRNOTEMPTY := 2
  const EINVALIDINODE := 3
  const EINVALIDSIZE := 5
  const EWRITETODIR := 6
  const ENOTFOUND := 7
  const EINVALIDNAME := 8
  const EINVALIDTYPE := 9
  const EUNLINKNOTALLOWED := 10

  /** A C string: no character is NUL. */
  type Name = s: string | '\0' !in s

  type Page = s: seq<bv8> | |s| == 4096 witness seq(4096, _ => 0)

  type Pointers = s: seq<int> | |s| == 30 witness seq(30, _ => 0)

  datatype Inode = Inode(typ: int, size: int, direct: Pointers)

  datatype DirEnt = DirEnt(name: Name, inum: int)

  type InodeTable = s: seq<Inode> | |s| == 32 witness seq(32, _ => Inode(0, 0, seq(30, _ => 0)))

  type DirPage = s: seq<DirEnt> | |s| == 128 witness seq(128, _ => DirEnt("", 0))

  datatype Super = Super(
    inodeBitmapAddr: int, inodeBitmapLen: int,
    dataBitmapAddr: int, dataBitmapLen: int,
    inodeRegionAddr: int, inodeRegionLen: int,
    dataRegionAddr: int, dataRegionLen: int,
    numInodes: int, numData: int)

  datatype Block =
    | SuperBlock(super: Super)
    | ByteBlock(bytes: Page)
    | InodeBlock(inodes: InodeTable)
    | DirBlock(entries: DirPage)

  /** The number of blocks that hold `size` bytes. */
  function NumBlocks(size: int): int {
    (size + 4095) / 4096
  }

  lemma NumBlocksBounds(size: int)
    requires 0 <= size
    ensures size <= 4096 * NumBlocks(size) < size + 4096
    ensures NumBlocks(size) == 0 <==> size == 0
  {
  }
}
