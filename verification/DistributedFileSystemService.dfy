/** The service's requests as the code makes them: loops that cut the path and call the file system. */
module DistributedFileSystemServiceModel {
  import opened Ufs
  import opened Volume
  import opened Storage
  import opened Objects
  import opened Consistency
  import opened ReadSpec
  import opened LocalFileSystemModel
  import opened Paths
  import opened PathText
  import opened ServiceSpec
  import opened DeleteSpec

  lemma WalkStep(N: map<int, Node>, n: int, head: Name, rest: Path)
    requires n >= 0
    ensures Walk(N, n, [head] + rest) == Walk(N, Namespace.Lookup(N, n, head), rest)
  {
    assert ([head] + rest)[1..] == rest;
  }

  lemma CutComponents(path: Name)
    requires path != ""
    ensures Components(path) == [Head(path)] + Components(Tail(path))
  {
    hide Dirs, Last, FirstSlash;
    if FirstSlash(path) < 0 {
      CutNone(path);
      NoComponents();
      assert [path] + [] == [path];
    } else {
      CutAt(path);
      var rest := Tail(path);
      assert [Head(path)] + (Dirs(rest) + [Last(rest)]) == [Head(path)] + Dirs(rest) + [Last(rest)];
    }
  }

  /** One turn of the loop that walks a path. */
  lemma CutStep(N: map<int, Node>, n: int, path: Name)
    requires path != "" && n >= 0
    ensures var m := Namespace.Lookup(N, n, Head(path));
            && Walk(N, n, Components(path)) == Walk(N, m, Components(Tail(path)))
            && (m < 0 ==> Walk(N, n, Components(path)) == m)
  {
    hide Components, Namespace.Lookup, Head, Tail;
    CutComponents(path);
    WalkStep(N, n, Head(path), Components(Tail(path)));
  }

  lemma NoComponents()
    ensures Components("") == []
  {
  }

  /** `PutDirs` one directory at a time. */
  lemma PutDirsStep(v: Vol, inum: int, head: Name, rest: Path)
    requires Consistent(v)
    ensures var found := Namespace.Lookup(Abs(v), inum, head);
            && (found == -ENOTFOUND ==>
                  var out := CreateSpec.Create(v, inum, UFS_DIRECTORY, head);
                  if out.ret < 0 then PutDirs(v, inum, [head] + rest) == (out.vol, out.ret)
                  else Consistent(out.vol) && PutDirs(v, inum, [head] + rest) == PutDirs(out.vol, out.ret, rest))
            && (found != -ENOTFOUND ==>
                  PutDirs(v, inum, [head] + rest) == if found < 0 then (v, found) else PutDirs(v, found, rest))
  {
    hide Owned, GoodObjs, Namespace.Tree, CreateSpec.Create, Abs, Namespace.Lookup;
    assert ([head] + rest)[1..] == rest;
    CreateSpec.CreateRefines(v, inum, UFS_DIRECTORY, head);
  }

  class DistributedFileSystemService {
    const fileSystem: LocalFileSystem

    ghost predicate Valid()
      reads fileSystem.disk
    {
      fileSystem.Valid()
    }

    constructor (fileSystem: LocalFileSystem)
      requires fileSystem.Valid()
      ensures Valid() && this.fileSystem == fileSystem
    {
      this.fileSystem := fileSystem;
    }

    /** Answers with the bytes of a file or the names in a directory. */
    method Get(path: Name) returns (reply: Reply)
      requires Valid()
      ensures reply == ServiceSpec.Get(Abs(fileSystem.Vol()), path)
    {
      hide Owned, GoodObjs, Namespace.Tree, Abs, View, Typed, Components, Walk, Answer, ServiceSpec.Get;
      GetIs(Abs(fileSystem.Vol()), path);
      var inum := WalkPath(path);
      NegativeAnswer(Abs(fileSystem.Vol()), inum);
      if inum < 0 {
        return ClientError(NOT_FOUND);
      }
      reply := GetObject(inum);
    }

    /** The loop that cuts the path and looks its names up; it ends at the first name that is not there. */
    method WalkPath(path: Name) returns (inum: int)
      requires Valid()
      ensures inum == Walk(Abs(fileSystem.Vol()), 0, Components(path))
    {
      hide Owned, GoodObjs, Namespace.Tree, Namespace.Lookup, Abs, View, Typed, Components, Head, Tail, Walk;
      ghost var N := Abs(fileSystem.Vol());
      var rest: Name := path;
      inum := 0;
      while rest != ""
        invariant inum >= 0 && Walk(N, 0, Components(path)) == Walk(N, inum, Components(rest))
        decreases |rest|
      {
        CutStep(N, inum, rest);
        var path2 := Tail(rest);
        inum := fileSystem.Lookup(inum, Head(rest));
        if inum < 0 {
          return;
        }
        rest := path2;
      }
      NothingLeft(N, inum);
    }

    /** What GET answers once it has reached an inode number. */
    method GetObject(inum: int) returns (reply: Reply)
      requires Valid()
      ensures reply == Answer(Abs(fileSystem.Vol()), inum)
    {
      hide Owned, GoodObjs, Namespace.Tree, Abs, View, Typed;
      ghost var N := Abs(fileSystem.Vol());
      var failed, inode := fileSystem.Stat(inum);
      AbsAt(fileSystem.Vol(), inum);
      if failed != 0 {
        return ClientError(NOT_FOUND);
      }
      LiveNode(fileSystem.Vol(), inum);
      if inode.typ == UFS_DIRECTORY {
        CreateSpec.DirObj(fileSystem.Vol(), inum);
        var br, buffer := fileSystem.Read(inum, 122880);
        reply := ListEntries(inum, br, buffer.entries);
      } else {
        SizeFromNode(fileSystem.Vol(), inum);
        var br, buffer := fileSystem.Read(inum, inode.size);
        if br < 0 {
          return LengthError;
        }
        reply := Bytes(buffer.bytes);
      }
    }

    /** The loop over the entries that were read. */
    method ListEntries(ghost n: int, br: int, buffer: seq<DirEnt>) returns (reply: Reply)
      requires Valid() && n in Abs(fileSystem.Vol()) && Abs(fileSystem.Vol())[n].DirNode?
      requires buffer == WithDots(n, Abs(fileSystem.Vol())[n]) && br == 32 * |buffer|
      ensures reply == Answer(Abs(fileSystem.Vol()), n)
    {
      hide Owned, GoodObjs, Namespace.Tree, Abs, View, Typed, Listing, NodeOf, ObjAt, GoodObj;
      ghost var N := Abs(fileSystem.Vol());
      ghost var es := N[n].entries;
      EntriesInside(N, n);
      EntriesNamed(N, n);
      NothingListed(N);
      var ss := "";
      var offset := 0;
      while offset < br
        invariant 0 <= offset <= br && offset % 32 == 0
        invariant ss == Listing(N, es[..Seen(offset / 32)])
      {
        var entry := buffer[offset / 32];
        if entry.inum != -1 && entry.name != "." && entry.name != ".." {
          ListingStep(N, es, offset / 32 - 2);
          var failed, inode := fileSystem.Stat(entry.inum);
          AbsAt(fileSystem.Vol(), entry.inum);
          if failed != 0 {
            assert false;
          } else {
            LiveNode(fileSystem.Vol(), entry.inum);
            if inode.typ == UFS_DIRECTORY {
              ss := ss + entry.name + "/\n";
            } else {
              ss := ss + entry.name + "\n";
            }
          }
        }
        offset := offset + 32;
      }
      assert es[..|es|] == es;
      reply := Text(ss);
    }

    /** How many of the first `k` entries come after the dots. */
    static ghost function Seen(k: nat): nat {
      if k < 2 then 0 else k - 2
    }

    lemma EntriesNamed(N: map<int, Node>, n: int)
      requires Namespace.Tree(N) && n in N && N[n].DirNode?
      ensures forall e :: 0 <= e < |N[n].entries| ==>
                N[n].entries[e].inum >= 0 && N[n].entries[e].name != "." && N[n].entries[e].name != ".."
    {
      var at: map<int, Loc>, rank: map<int, nat> :| Namespace.Named(N, at, rank);
      forall e | 0 <= e < |N[n].entries|
        ensures N[n].entries[e].inum >= 0 && N[n].entries[e].name != "." && N[n].entries[e].name != ".."
      {
        assert Namespace.GoodEntry(N, at, rank, n, e);
      }
    }

    lemma NothingListed(N: map<int, Node>)
      ensures Listing(N, []) == ""
    {
    }

    lemma ListingStep(N: map<int, Node>, es: seq<DirEnt>, k: int)
      requires 0 <= k < |es| && forall i :: 0 <= i < |es| ==> es[i].inum in N
      ensures Listing(N, es[..k + 1]) == Listing(N, es[..k]) + es[k].name
              + (if N[es[k].inum].DirNode? then "/\n" else "\n")
    {
      assert es[..k + 1][..k] == es[..k];
    }

    lemma GetIs(N: map<int, Node>, path: Name)
      requires Namespace.Tree(N)
      ensures ServiceSpec.Get(N, path) == Answer(N, Walk(N, 0, Components(path)))
    {
    }

    lemma NegativeAnswer(N: map<int, Node>, n: int)
      requires Namespace.Tree(N)
      ensures n < 0 ==> Answer(N, n) == ClientError(NOT_FOUND)
    {
      NegativesOutside(N);
    }

    lemma NothingLeft(N: map<int, Node>, n: int)
      ensures Components("") == [] && Walk(N, n, Components("")) == n
    {
    }

    lemma WalkNegative(N: map<int, Node>, n: int, path: Path)
      requires n < 0
      ensures Walk(N, n, path) == n
    {
    }

    /** Stores the content in the file that the path names, creating it and the directories on the way.
        There is no transaction around the calls. */
    method Put(path: Name, content: seq<bv8>, leftover: Page) returns (reply: Reply)
      requires Valid()
      modifies fileSystem.disk
      ensures Valid()
      ensures (fileSystem.Vol(), reply) == old(ServiceSpec.Put(fileSystem.Vol(), path, content, leftover))
    {
      hide Owned, GoodObjs, Namespace.Tree, Abs, View, Typed, FirstSlash, Head, Tail, Dirs, Last, PutDirs, PutFile,
          Namespace.Lookup, CreateSpec.Create;
      ghost var v := fileSystem.Vol();
      RootDir(v);
      PutDirsGrows(v, 0, Dirs(path));
      var rest: Name := path;
      var inum := 0;
      while rest != ""
        invariant Valid() && inum >= 0
        invariant PutDirs(v, 0, Dirs(path)) == PutDirs(fileSystem.Vol(), inum, Dirs(rest))
        invariant Last(path) == Last(rest)
        decreases |rest|
      {
        if FirstSlash(rest) < 0 {
          break;
        }
        CutAt(rest);
        PutDirsStep(fileSystem.Vol(), inum, Head(rest), Dirs(Tail(rest)));
        var path2 := Tail(rest);
        rest := Head(rest);
        var ret := fileSystem.Lookup(inum, rest);
        if ret == -ENOTFOUND {
          inum := fileSystem.Create(inum, UFS_DIRECTORY, rest);
          if inum < 0 {
            return ClientError(BAD_REQUEST);
          }
        } else if ret < 0 {
          return ClientError(BAD_REQUEST);
        } else {
          inum := ret;
        }
        rest := path2;
      }
      if rest != "" { CutNone(rest); } else { CutNone(""); }
      PutDirsNone(fileSystem.Vol(), inum);
      if rest == "" {
        return ClientError(BAD_REQUEST);
      }
      reply := PutInDirectory(inum, rest, content, leftover);
    }

    lemma PutDirsNone(v: Vol, inum: int)
      requires Consistent(v)
      ensures PutDirs(v, inum, []) == (v, inum)
    {
      hide Owned, GoodObjs, Namespace.Tree, Abs, CreateSpec.Create;
    }

    /** The last step of PUT, in the directory that the names before the last one led to. */
    method PutInDirectory(parentInodeNumber: int, path: Name, content: seq<bv8>, leftover: Page) returns (reply: Reply)
      requires Valid()
      modifies fileSystem.disk
      ensures Valid()
      ensures (fileSystem.Vol(), reply) == old(PutFile(fileSystem.Vol(), parentInodeNumber, path, content, leftover))
    {
      hide Owned, GoodObjs, Namespace.Tree, Abs, View, Typed, Namespace.Lookup, CreateSpec.Create, WriteSpec.Write;
      var inum := fileSystem.Lookup(parentInodeNumber, path);
      if inum == -ENOTFOUND {
        inum := fileSystem.Create(parentInodeNumber, UFS_REGULAR_FILE, path);
        if inum < 0 {
          return ClientError(INSUFFICIENT_STORAGE);
        }
      } else if inum < 0 {
        return ClientError(BAD_REQUEST);
      }
      var ret := fileSystem.Write(inum, content, leftover);
      if ret < 0 {
        return ClientError(INSUFFICIENT_STORAGE);
      }
      reply := Ok;
    }

    /** Removes what the path names: a file or an empty directory. */
    method Del(path: Name) returns (reply: Reply)
      requires Valid()
      modifies fileSystem.disk
      ensures Valid()
      ensures (fileSystem.Vol(), reply) == old(Delete(fileSystem.Vol(), path))
      ensures reply != Ok ==> fileSystem.disk.image == old(fileSystem.disk.image)
    {
      hide Owned, GoodObjs, Namespace.Tree, Abs, View, Typed, FirstSlash, Head, Tail, Dirs, Last, Walk,
          Namespace.Lookup, UnlinkSpec.Unlink;
      ghost var N := Abs(fileSystem.Vol());
      var rest: Name := path;
      if |path| > 0 && path[|path| - 1] == '/' {
        rest := path[..|path| - 1];
      }
      assert rest == Trimmed(path);
      var inum := 0;
      while rest != ""
        invariant inum >= 0 && unchanged(fileSystem.disk)
        invariant Walk(N, 0, Dirs(Trimmed(path))) == Walk(N, inum, Dirs(rest))
        invariant Last(Trimmed(path)) == Last(rest)
        decreases |rest|
      {
        if FirstSlash(rest) < 0 {
          break;
        }
        CutAt(rest);
        WalkStep(N, inum, Head(rest), Dirs(Tail(rest)));
        var path2 := Tail(rest);
        rest := Head(rest);
        inum := fileSystem.Lookup(inum, rest);
        if inum < 0 {
          WalkNegative(N, inum, Dirs(path2));
        }
        if inum == -ENOTFOUND {
          return ClientError(NOT_FOUND);
        } else if inum < 0 {
          return ClientError(BAD_REQUEST);
        }
        rest := path2;
      }
      if rest != "" { CutNone(rest); } else { CutNone(""); }
      WalkNothing(N, inum);
      if rest == "" {
        return ClientError(BAD_REQUEST);
      }
      var dinum := fileSystem.Lookup(inum, rest);
      if dinum < 0 {
        return ClientError(NOT_FOUND);
      }
      var ret := fileSystem.Unlink(inum, rest);
      if ret == -EDIRNOTEMPTY {
        return ClientError(FORBIDDEN);
      } else if ret == -EINVALIDNAME {
        return ClientError(NOT_FOUND);
      } else if ret < 0 {
        return ClientError(INSUFFICIENT_STORAGE);
      }
      reply := Ok;
    }

    lemma WalkNothing(N: map<int, Node>, n: int)
      ensures Walk(N, n, []) == n
    {
    }
  }
}
