/** What `read` copies to its caller. */
module ReadSpec {
  import opened Ufs
  import opened Volume
  import opened Storage
  import opened Objects
  import opened Namespace
  import opened Consistency
  import opened CreateSpec
  import opened WriteSpec

  /** The caller's buffer: bytes of a file, or entries of a directory. */
  datatype Buffer = Buffer(bytes: seq<bv8>, entries: seq<DirEnt>)

  function Min(a: int, b: int): int {
    if a < b then a else b
  }

  /** The buffer after the first `count` bytes of a block are appended. */
  function Copied(buffer: Buffer, block: Block, count: int): Buffer
    requires 0 <= count <= 4096
  {
    match block
    case ByteBlock(bytes) => buffer.(bytes := buffer.bytes + bytes[..count])
    case DirBlock(entries) => buffer.(entries := buffer.entries + entries[..count / 32])
    case _ => buffer
  }

  /** The buffer after the first `k` blocks of an object were copied, up to `size` bytes in all. */
  ghost function Gathered(blocks: seq<Block>, size: int, k: nat): Buffer
    requires k <= |blocks| && 4096 * (k - 1) <= size
  {
    if k == 0 then Buffer([], [])
    else Copied(Gathered(blocks, size, k - 1), blocks[k - 1], Min(4096, size - 4096 * (k - 1)))
  }

  lemma {:induction false} GatheredBytes(blocks: seq<Block>, size: int, k: nat)
    requires AllBytes(blocks) && k <= |blocks| && 4096 * (k - 1) <= size && 0 <= size
    ensures Gathered(blocks, size, k) == Buffer(Bytes(blocks)[..Min(size, 4096 * k)], [])
  {
    if k > 0 {
      GatheredBytes(blocks, size, k - 1);
      BytesOfBlock(blocks, k - 1);
      var count := Min(4096, size - 4096 * (k - 1));
      var all := Bytes(blocks);
      hide Bytes;
      assert all[..4096 * (k - 1)] + all[4096 * (k - 1)..4096 * (k - 1) + 4096][..count]
          == all[..4096 * (k - 1) + count];
    }
  }

  lemma BytesOfBlock(blocks: seq<Block>, i: nat)
    requires AllBytes(blocks) && i < |blocks|
    ensures Bytes(blocks)[4096 * i..4096 * i + 4096] == blocks[i].bytes
  {
    forall j | 0 <= j < 4096
      ensures Bytes(blocks)[4096 * i..4096 * i + 4096][j] == blocks[i].bytes[j]
    {
      assert (4096 * i + j) / 4096 == i && (4096 * i + j) % 4096 == j;
    }
  }

  lemma TakeMore<T>(s: seq<T>, a: nat, b: nat)
    requires a + 128 <= |s| && b <= 128
    ensures s[..a] + s[a..a + 128][..b] == s[..a + b]
  {
  }

  lemma {:induction false} GatheredEntries(blocks: seq<Block>, size: int, k: nat)
    requires AllDir(blocks) && k <= |blocks| && 4096 * (k - 1) <= size && 0 <= size
    ensures Gathered(blocks, size, k) == Buffer([], Entries(blocks)[..Min(size, 4096 * k) / 32])
  {
    if k > 0 {
      GatheredEntries(blocks, size, k - 1);
      EntriesOfBlock(blocks, k - 1);
      var count := Min(4096, size - 4096 * (k - 1));
      var all := Entries(blocks);
      hide Entries;
      assert Min(size, 4096 * (k - 1)) / 32 == 128 * (k - 1);
      TakeMore(all, 128 * (k - 1), count / 32);
      assert Min(size, 4096 * k) / 32 == 128 * (k - 1) + count / 32;
    }
  }

  /** The entries of directory `n` as its blocks hold them, dots first. */
  ghost function WithDots(n: int, node: Node): seq<DirEnt>
    requires node.DirNode?
  {
    [DirEnt(".", n), DirEnt("..", node.parent)] + node.entries
  }

  /** What a read of `size` bytes of an object finds. */
  ghost predicate Holds(n: int, node: Node, size: int, buffer: Buffer) {
    match node
    case FileNode(content) => 0 <= size <= |content| && buffer == Buffer(content[..size], [])
    case DirNode(_, entries) => 0 <= size / 32 <= |entries| + 2 && buffer == Buffer([], WithDots(n, node)[..size / 32])
  }

  lemma GatheredHolds(n: int, o: Obj, size: int)
    requires GoodObj(n, o) && 0 < size <= o.size
    ensures NumBlocks(size) <= |o.blocks| && 4096 * (NumBlocks(size) - 1) <= size
    ensures Holds(n, NodeOf(n, o), size, Gathered(o.blocks, size, NumBlocks(size)))
  {
    hide Bytes, Entries, Gathered;
    if o.typ == UFS_DIRECTORY {
      GatheredEntries(o.blocks, size, NumBlocks(size));
      var es := Entries(o.blocks);
      assert es[..o.size / 32] == [es[0], es[1]] + es[2..o.size / 32];
    } else {
      GatheredBytes(o.blocks, size, NumBlocks(size));
    }
  }

  /** What `read` returns, and what it leaves in the buffer. */
  ghost predicate ReadReturns(v: Vol, n: int, size: int, ret: int, buffer: Buffer)
    requires Consistent(v)
  {
    if size <= 0 then ret == -EINVALIDSIZE
    else if !Live(v, n) then ret == -EINVALIDINODE
    else ret == Min(size, v.inodes[n].size) && n in Abs(v) && Holds(n, Abs(v)[n], ret, buffer)
  }

  /** The least of the size and the length of `buf`, and that many of its bytes. */
  ghost predicate ReadsOff(buf: seq<bv8>, size: nat, ret: int, buffer: Buffer) {
    ret == Min(size, |buf|) && buffer == Buffer(buf[..ret], [])
  }

  /** After a successful write, whether the file grew, shrank or kept its blocks, a read returns the first
      bytes that were written, and a read of any other object returns what it would have returned before. */
  lemma ReadAfterWrite(v: Vol, n: int, buf: seq<bv8>, leftover: Page, m: int, size: int, ret: int, buffer: Buffer)
    requires Consistent(v) && Write(v, n, buf, leftover).ret >= 0 && size > 0
    ensures var v' := Write(v, n, buf, leftover).vol;
            && Consistent(v')
            && (ReadReturns(v', n, size, ret, buffer) <==> ReadsOff(buf, size, ret, buffer))
            && (m != n ==> (ReadReturns(v', m, size, ret, buffer) <==> ReadReturns(v, m, size, ret, buffer)))
  {
    hide Owned, GoodObjs, Tree, Abs, Write;
    WriteRefines(v, n, buf, leftover);
    var v' := Write(v, n, buf, leftover).vol;
    AbsAt(v', n);
    SizeFromNode(v', n);
    AbsAt(v, m);
    AbsAt(v', m);
    if m in Abs(v) { SizeFromNode(v, m); }
    if m in Abs(v') { SizeFromNode(v', m); }
  }

  /** The size that an object's inode records. */
  ghost function NodeSize(node: Node): int {
    match node
    case FileNode(content) => |content|
    case DirNode(_, entries) => 32 * (|entries| + 2)
  }

  /** The namespace determines the sizes. */
  lemma SizeFromNode(v: Vol, n: int)
    requires Sound(v) && Live(v, n)
    ensures n in Abs(v) && v.inodes[n].size == NodeSize(Abs(v)[n])
  {
    hide Owns, GoodObjs, Entries, Bytes;
    LiveNode(v, n);
    if v.inodes[n].typ == UFS_DIRECTORY { DirObj(v, n); }
  }

  /** What `read` returns, said of the namespace. */
  lemma ReadAnswers(v: Vol, n: int, size: int, ret: int, buffer: Buffer)
    requires Consistent(v)
    ensures ReadReturns(v, n, size, ret, buffer) <==>
              if size <= 0 then ret == -EINVALIDSIZE
              else if n !in Abs(v) then ret == -EINVALIDINODE
              else
                match Abs(v)[n]
                case FileNode(content) =>
                  ret == (if size < |content| then size else |content|) && buffer == Buffer(content[..ret], [])
                case DirNode(parent, entries) =>
                  var all := [DirEnt(".", n), DirEnt("..", parent)] + entries;
                  ret == (if size < 32 * |all| then size else 32 * |all|) && buffer == Buffer([], all[..ret / 32])
  {
    hide Owned, GoodObjs, Tree, Abs;
    AbsAt(v, n);
    if n in Abs(v) { SizeFromNode(v, n); }
  }
}
