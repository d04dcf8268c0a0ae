/** What the blocks of one object mean: a regular file is a byte string, a directory is a parent and
    a list of entries. */
module Objects {
  import opened Ufs
  import opened Storage

  datatype Node =
    | FileNode(content: seq<bv8>)
    | DirNode(parent: int, entries: seq<DirEnt>)

  ghost predicate AllDir(blocks: seq<Block>) {
    forall k :: 0 <= k < |blocks| ==> blocks[k].DirBlock?
  }

  ghost predicate AllBytes(blocks: seq<Block>) {
    forall k :: 0 <= k < |blocks| ==> blocks[k].ByteBlock?
  }

  ghost function Entries(blocks: seq<Block>): (es: seq<DirEnt>)
    requires AllDir(blocks)
    ensures |es| == 128 * |blocks|
  {
    seq(128 * |blocks|, e requires 0 <= e < 128 * |blocks| => blocks[e / 128].entries[e % 128])
  }

  lemma EntriesOfBlock(blocks: seq<Block>, i: nat)
    requires AllDir(blocks) && i < |blocks|
    ensures Entries(blocks)[128 * i..128 * i + 128] == blocks[i].entries
  {
    forall j | 0 <= j < 128
      ensures Entries(blocks)[128 * i..128 * i + 128][j] == blocks[i].entries[j]
    {
      assert (128 * i + j) / 128 == i && (128 * i + j) % 128 == j;
    }
  }

  ghost function Bytes(blocks: seq<Block>): (bs: seq<bv8>)
    requires AllBytes(blocks)
    ensures |bs| == 4096 * |blocks|
  {
    seq(4096 * |blocks|, x requires 0 <= x < 4096 * |blocks| => blocks[x / 4096].bytes[x % 4096])
  }

  /** A directory: its first two entries are "." and "..", and past its size every entry is unused. */
  ghost predicate GoodDir(n: int, o: Obj) {
    && 64 <= o.size && o.size % 32 == 0
    && |o.blocks| == NumBlocks(o.size)
    && AllDir(o.blocks)
    && var es := Entries(o.blocks);
    && es[0] == DirEnt(".", n)
    && es[1].name == ".."
    && forall e :: o.size / 32 <= e < |es| ==> es[e].inum == -1
  }

  ghost predicate GoodFile(o: Obj) {
    && 0 <= o.size
    && |o.blocks| == NumBlocks(o.size)
    && AllBytes(o.blocks)
  }

  ghost predicate GoodObj(n: int, o: Obj) {
    if o.typ == UFS_DIRECTORY then GoodDir(n, o) else GoodFile(o)
  }

  ghost function NodeOf(n: int, o: Obj): Node
    requires GoodObj(n, o)
  {
    if o.typ == UFS_DIRECTORY then
      DirNode(Entries(o.blocks)[1].inum, Entries(o.blocks)[2..o.size / 32])
    else
      FileNode(Bytes(o.blocks)[..o.size])
  }

  // Block contents

  function FreeEntries(count: nat): seq<DirEnt> {
    seq(count, _ => DirEnt("", -1))
  }

  /** The first block of a new directory. */
  function NewDirBlock(n: int, parent: int): Block {
    DirBlock([DirEnt(".", n), DirEnt("..", parent)] + FreeEntries(126))
  }

  /** A block added to a directory for one more entry. */
  function NewEntryBlock(ent: DirEnt): Block {
    DirBlock([ent] + FreeEntries(127))
  }

  lemma NewDirGood(n: int, parent: int)
    ensures var o := Obj(UFS_DIRECTORY, 64, [NewDirBlock(n, parent)]);
            GoodDir(n, o) && NodeOf(n, o) == DirNode(parent, [])
  {
    var o := Obj(UFS_DIRECTORY, 64, [NewDirBlock(n, parent)]);
    assert forall e :: 2 <= e < 128 ==> Entries(o.blocks)[e].inum == -1;
  }

  lemma NewFileGood(n: int)
    ensures var o := Obj(UFS_REGULAR_FILE, 0, []);
            GoodObj(n, o) && NodeOf(n, o) == FileNode([])
  {
  }

  /** Whether the blocks of a directory have room for one more entry. */
  function HasRoom(o: Obj): bool {
    o.size / 32 < 128 * NumBlocks(o.size)
  }

  /** The directory with `ent` appended, in the free entry after its last one or in a new block. */
  ghost function AddEntry(n: int, o: Obj, ent: DirEnt): Obj
    requires GoodDir(n, o)
  {
    var e := o.size / 32;
    if HasRoom(o) then
      Obj(o.typ, o.size + 32, o.blocks[e / 128 := DirBlock(o.blocks[e / 128].entries[e % 128 := ent])])
    else
      Obj(o.typ, o.size + 32, o.blocks + [NewEntryBlock(ent)])
  }

  lemma AddEntryEntries(n: int, o: Obj, ent: DirEnt)
    requires GoodDir(n, o)
    ensures var o' := AddEntry(n, o, ent);
            && AllDir(o'.blocks)
            && |o'.blocks| == NumBlocks(o'.size)
            && |Entries(o.blocks)| <= |Entries(o'.blocks)|
            && o.size / 32 < |Entries(o'.blocks)|
            && Entries(o'.blocks)[..o.size / 32] == Entries(o.blocks)[..o.size / 32]
            && Entries(o'.blocks)[o.size / 32] == ent
            && forall f :: o.size / 32 < f < |Entries(o'.blocks)| ==> Entries(o'.blocks)[f].inum == -1
  {
    var e := o.size / 32;
    var o' := AddEntry(n, o, ent);
    var es, es' := Entries(o.blocks), Entries(o'.blocks);
    forall f | 0 <= f < |es'|
      ensures es'[f] == if f == e then ent else if f < |es| then es[f] else DirEnt("", -1)
    {
      if f / 128 == e / 128 {
        assert f == e <==> f % 128 == e % 128;
      }
    }
  }

  lemma AddEntryGood(n: int, o: Obj, ent: DirEnt)
    requires GoodDir(n, o) && o.typ == UFS_DIRECTORY
    ensures var o' := AddEntry(n, o, ent);
            GoodDir(n, o')
            && NodeOf(n, o') == DirNode(NodeOf(n, o).parent, NodeOf(n, o).entries + [ent])
  {
    AddEntryEntries(n, o, ent);
    var o' := AddEntry(n, o, ent);
    var es, es' := Entries(o.blocks), Entries(o'.blocks);
    var e := o.size / 32;
    assert es'[0] == es'[..e][0] && es'[1] == es'[..e][1];
    assert es'[2..e + 1] == es'[..e][2..] + [es'[e]];
    assert es[2..e] == es[..e][2..];
  }

  /** The entries as the blocks that hold them. */
  ghost function ToBlocks(es: seq<DirEnt>): (blocks: seq<Block>)
    requires |es| % 128 == 0
    ensures |blocks| == |es| / 128
    ensures AllDir(blocks) && Entries(blocks) == es
  {
    var blocks := seq(|es| / 128, k requires 0 <= k < |es| / 128 => DirBlock(es[128 * k..128 * k + 128]));
    assert Entries(blocks) == es;
    blocks
  }

  /** All entries of the directory's blocks after entry `e` of `count` is removed and the later ones
      move down; the place the last one leaves keeps its name but is marked unused. */
  function Squeeze(es: seq<DirEnt>, e: int, count: int): (r: seq<DirEnt>)
    requires 0 <= e < count <= |es|
    ensures |r| == |es|
  {
    es[..e] + es[e + 1..count] + [es[count - 1].(inum := -1)] + es[count..]
  }

  /** The directory without entry `e`, and without its last block if that held only this entry. */
  ghost function RemoveEntry(n: int, o: Obj, e: int): Obj
    requires GoodDir(n, o) && 2 <= e < o.size / 32
  {
    var es := Squeeze(Entries(o.blocks), e, o.size / 32);
    Obj(o.typ, o.size - 32, ToBlocks(es[..128 * NumBlocks(o.size - 32)]))
  }

  lemma SqueezeIs(es: seq<DirEnt>, e: int, count: int)
    requires 2 <= e < count <= |es|
    requires forall f :: count <= f < |es| ==> es[f].inum == -1
    ensures var r := Squeeze(es, e, count);
            && r[0] == es[0] && r[1] == es[1]
            && r[2..count - 1] == es[2..count][..e - 2] + es[2..count][e - 1..]
            && forall f :: count - 1 <= f < |r| ==> r[f].inum == -1
  {
  }

  lemma FewerBlocks(size: int)
    requires 64 <= size && size % 32 == 0
    ensures size / 32 - 1 <= 128 * NumBlocks(size - 32) <= 128 * NumBlocks(size)
    ensures (size - 32) / 32 == size / 32 - 1 && (size - 32) % 32 == 0 && size / 32 <= 128 * NumBlocks(size)
  {
  }

  /** The entries of the directory that is left. */
  lemma RemoveEntryEntries(n: int, o: Obj, e: int)
    requires GoodDir(n, o) && 2 <= e < o.size / 32
    ensures var o', count, es := RemoveEntry(n, o, e), o.size / 32, Entries(o.blocks);
            && AllDir(o'.blocks) && |o'.blocks| == NumBlocks(o.size - 32) && o'.size == o.size - 32 && o'.typ == o.typ
            && var kept := Entries(o'.blocks);
            && 3 <= count <= |es| && count - 1 <= |kept|
            && kept[0] == es[0] && kept[1] == es[1]
            && kept[2..count - 1] == es[2..count][..e - 2] + es[2..count][e - 1..]
            && forall f :: count - 1 <= f < |kept| ==> kept[f].inum == -1
  {
    hide Entries, Squeeze, ToBlocks;
    var es, count := Entries(o.blocks), o.size / 32;
    FewerBlocks(o.size);
    SqueezeIs(es, e, count);
    var moved := Squeeze(es, e, count);
    var kept := moved[..128 * NumBlocks(o.size - 32)];
    assert kept[2..count - 1] == moved[2..count - 1];
  }

  lemma RemoveEntryGood(n: int, o: Obj, e: int)
    requires GoodDir(n, o) && o.typ == UFS_DIRECTORY && 2 <= e < o.size / 32
    ensures var o' := RemoveEntry(n, o, e);
            var d := NodeOf(n, o);
            && GoodDir(n, o')
            && e - 2 < |d.entries|
            && NodeOf(n, o') == DirNode(d.parent, d.entries[..e - 2] + d.entries[e - 1..])
  {
    hide Entries, RemoveEntry;
    FewerBlocks(o.size);
    RemoveEntryEntries(n, o, e);
  }

  // File contents

  /** Block `k` of a file that holds `buf`; the rest of a partial last block is leftover buffer content. */
  function FileBlock(buf: seq<bv8>, leftover: Page, k: nat): Block
    requires 4096 * k < |buf|
  {
    if 4096 * k + 4096 <= |buf| then ByteBlock(buf[4096 * k..4096 * k + 4096])
    else ByteBlock(buf[4096 * k..] + leftover[|buf| - 4096 * k..])
  }

  ghost function FileBlocks(buf: seq<bv8>, leftover: Page): (blocks: seq<Block>)
    ensures |blocks| == NumBlocks(|buf|)
    ensures forall k :: 0 <= k < |blocks| ==> blocks[k] == FileBlock(buf, leftover, k)
  {
    seq(NumBlocks(|buf|), k requires 0 <= k < NumBlocks(|buf|) => FileBlock(buf, leftover, k))
  }

  lemma FileBlocksHold(n: int, buf: seq<bv8>, leftover: Page)
    ensures var o := Obj(UFS_REGULAR_FILE, |buf|, FileBlocks(buf, leftover));
            GoodObj(n, o) && NodeOf(n, o) == FileNode(buf)
  {
    var blocks := FileBlocks(buf, leftover);
    forall x | 0 <= x < |buf|
      ensures Bytes(blocks)[x] == buf[x]
    {
      assert blocks[x / 4096] == FileBlock(buf, leftover, x / 4096);
    }
    assert Bytes(blocks)[..|buf|] == buf;
  }
}
