/** The scan of a directory's blocks, which ignores the directory's size, finds what the directory says. */
module LookupScan {
  import opened Ufs
  import opened Storage
  import opened Objects
  import opened Namespace

  ghost predicate Matches(ent: DirEnt, name: Name) {
    ent.inum != -1 && ent.name == name
  }

  ghost predicate NoMatch(es: seq<DirEnt>, count: int, name: Name) {
    0 <= count <= |es| && forall e :: 0 <= e < count ==> !Matches(es[e], name)
  }

  lemma NoMatchYet(es: seq<DirEnt>, name: Name)
    ensures NoMatch(es, 0, name)
  {
  }

  lemma NoMatchInBlock(es: seq<DirEnt>, i: nat, page: DirPage, off: int, name: Name)
    requires 128 * i + 128 <= |es| && page == es[128 * i..128 * i + 128]
    requires 0 <= off <= 128 && NoMatch(page, off, name) && NoMatch(es, 128 * i, name)
    ensures NoMatch(es, 128 * i + off, name)
    ensures off == 128 ==> NoMatch(es, 128 * (i + 1), name)
    ensures off < 128 ==> es[128 * i + off] == page[off]
    ensures off < 128 && Matches(page[off], name) ==> Matches(es[128 * i + off], name)
  {
    forall e | 0 <= e < 128 * i + off
      ensures !Matches(es[e], name)
    {
      assert e >= 128 * i ==> es[e] == page[e - 128 * i];
    }
  }

  /** Every entry of a directory in a tree is used, and no such entry has a dot for a name. */
  lemma EntriesUsed(N: map<int, Node>, n: int, o: Obj)
    requires Tree(N) && GoodDir(n, o) && o.typ == UFS_DIRECTORY && n in N && N[n] == NodeOf(n, o)
    ensures n >= 0 && Entries(o.blocks)[1].inum >= 0
    ensures forall e :: 2 <= e < o.size / 32 ==>
              e < |Entries(o.blocks)| && Entries(o.blocks)[e].inum >= 0 && GoodName(Entries(o.blocks)[e].name)
  {
    var at: map<int, Loc>, rank: map<int, nat> :| Named(N, at, rank);
    var es := Entries(o.blocks);
    if n != 0 {
      assert NamedAt(N, at, n);
      assert GoodEntry(N, at, rank, at[n].inum, at[n].slot);
    }
    forall e | 2 <= e < o.size / 32
      ensures es[e].inum >= 0 && GoodName(es[e].name)
    {
      assert es[2..o.size / 32][e - 2] == es[e];
      assert GoodEntry(N, at, rank, n, e - 2);
    }
  }

  /** The first match of the whole-block scan is what the directory says. */
  lemma ScanFound(N: map<int, Node>, n: int, o: Obj, name: Name, e: int)
    requires Tree(N) && GoodDir(n, o) && o.typ == UFS_DIRECTORY && n in N && N[n] == NodeOf(n, o)
    requires 0 <= e < |Entries(o.blocks)|
    requires NoMatch(Entries(o.blocks), e, name) && Matches(Entries(o.blocks)[e], name)
    ensures Lookup(N, n, name) == Entries(o.blocks)[e].inum
  {
    EntriesUsed(N, n, o);
    var es := Entries(o.blocks);
    if e >= 2 {
      assert GoodName(es[e].name);
      var inner := N[n].entries;
      assert inner[e - 2] == es[e];
      var f := Find(inner, name);
      assert f >= 0;
      assert inner[f] == es[f + 2];
      assert Matches(es[f + 2], name);
      assert f + 2 == e;
    } else {
      assert Matches(es[0], name) <==> name == ".";
    }
  }

  /** If no block holds a match, the name is absent. */
  lemma ScanMissed(N: map<int, Node>, n: int, o: Obj, name: Name)
    requires Tree(N) && GoodDir(n, o) && o.typ == UFS_DIRECTORY && n in N && N[n] == NodeOf(n, o)
    requires NoMatch(Entries(o.blocks), |Entries(o.blocks)|, name)
    ensures Lookup(N, n, name) == -ENOTFOUND
  {
    EntriesUsed(N, n, o);
    var es := Entries(o.blocks);
    assert !Matches(es[0], name) && !Matches(es[1], name);
    var inner := es[2..o.size / 32];
    assert forall f :: 0 <= f < |inner| ==> inner[f] == es[f + 2] && !Matches(es[f + 2], name);
  }

  /** The scan that stops at the directory's size, as the code that unlinks does, finds the same entry:
      whether or not the size is consulted makes no difference for any name but the dots. */
  lemma ScansAgree(N: map<int, Node>, n: int, o: Obj, name: Name, e: int)
    requires Tree(N) && GoodDir(n, o) && o.typ == UFS_DIRECTORY && n in N && N[n] == NodeOf(n, o)
    requires name != "." && name != ".."
    requires 0 <= e <= o.size / 32
    requires NoMatch(Entries(o.blocks), e, name)
    requires e < o.size / 32 ==> Matches(Entries(o.blocks)[e], name)
    ensures Find(N[n].entries, name) == if e == o.size / 32 then -1 else e - 2
    ensures Lookup(N, n, name) == if e == o.size / 32 then -ENOTFOUND else Entries(o.blocks)[e].inum
    ensures e == o.size / 32 ==> NoMatch(Entries(o.blocks), |Entries(o.blocks)|, name)
    ensures 2 <= e
  {
    EntriesUsed(N, n, o);
    var es := Entries(o.blocks);
    var inner := N[n].entries;
    assert forall f :: 0 <= f < |inner| ==> inner[f] == es[f + 2];
    var f := Find(inner, name);
    if f >= 0 {
      assert Matches(es[f + 2], name);
    }
    if e < o.size / 32 {
      assert inner[e - 2] == es[e];
    }
  }
}
