/** The order of a directory's entries: that in which the objects they name were created. */
module ListingOrder {
  import opened Ufs
  import opened Volume
  import opened Storage
  import opened Objects
  import opened Namespace
  import opened Consistency
  import opened CreateSpec
  import opened WriteSpec
  import opened UnlinkSpec
  import opened Runs
  import Mkfs

  /** After one more call: objects that were there keep the time of their creation, new ones get the current one. */
  ghost function Aged(N: map<int, Node>, M: map<int, Node>, born: map<int, nat>, clock: nat): map<int, nat> {
    map n | n in M :: if n in N && n in born then born[n] else clock
  }

  /** By which call of a run each object was last created. */
  ghost function Births(v: Vol, ops: seq<Op>, born: map<int, nat>, clock: nat): map<int, nat>
    requires Consistent(v) && ValidOps(ops)
    decreases |ops|
  {
    hide Create, Write, Unlink, Owned, GoodObjs, Tree;
    if ops == [] then born
    else
      StepRefines(v, ops[0]);
      var w := Step(v, ops[0]).vol;
      Births(w, ops[1..], Aged(Abs(v), Abs(w), born, clock), clock + 1)
  }

  ghost predicate EntriesInOrder(es: seq<DirEnt>, born: map<int, nat>) {
    && (forall i :: 0 <= i < |es| ==> es[i].inum in born)
    && (forall i, j :: 0 <= i < j < |es| ==> born[es[i].inum] < born[es[j].inum])
  }

  /** The entries of every directory are in the order of their creation, oldest first. */
  ghost predicate InOrder(N: map<int, Node>, born: map<int, nat>, clock: nat) {
    && N.Keys == born.Keys
    && (forall n :: n in N ==> born[n] < clock)
    && (forall n :: n in N && N[n].DirNode? ==> EntriesInOrder(N[n].entries, born))
  }

  lemma AgedOrder(es: seq<DirEnt>, N: map<int, Node>, M: map<int, Node>, born: map<int, nat>, clock: nat)
    requires EntriesInOrder(es, born) && N.Keys == born.Keys
    requires forall i :: 0 <= i < |es| ==> es[i].inum in M
    ensures EntriesInOrder(es, Aged(N, M, born, clock))
  {
  }

  lemma EnteredInOrder(N: map<int, Node>, n: int, name: Name, i: int, node: Node, born: map<int, nat>, clock: nat)
    requires InOrder(N, born, clock) && n in N && N[n].DirNode? && i !in N && EmptyNode(node, n)
    ensures var M := Entered(N, n, name, i, node);
            InOrder(M, Aged(N, M, born, clock), clock + 1)
  {
    var M := Entered(N, n, name, i, node);
    var later := Aged(N, M, born, clock);
    forall m | m in M && M[m].DirNode?
      ensures EntriesInOrder(M[m].entries, later)
    {
      if m in N {
        AgedOrder(N[m].entries, N, M, born, clock);
        if m == n {
          LastInOrder(N[n].entries, DirEnt(name, i), later);
        }
      }
    }
  }

  lemma LastInOrder(es: seq<DirEnt>, ent: DirEnt, born: map<int, nat>)
    requires EntriesInOrder(es, born) && ent.inum in born
    requires forall i :: 0 <= i < |es| ==> born[es[i].inum] < born[ent.inum]
    ensures EntriesInOrder(es + [ent], born)
  {
  }

  lemma WithoutInOrder(es: seq<DirEnt>, e: int, born: map<int, nat>)
    requires EntriesInOrder(es, born) && 0 <= e < |es|
    ensures EntriesInOrder(Without(es, e), born)
  {
    var r := Without(es, e);
    assert forall i :: 0 <= i < |r| ==> r[i] == es[if i < e then i else i + 1];
  }

  /** No entry that stays names the object that goes. */
  lemma RemovedInOrder(N: map<int, Node>, n: int, e: int, born: map<int, nat>, clock: nat)
    requires InOrder(N, born, clock) && Tree(N)
    requires n in N && N[n].DirNode? && 0 <= e < |N[n].entries| && Removable(N, N[n].entries[e].inum)
    ensures var M := Removed(N, n, e);
            InOrder(M, Aged(N, M, born, clock), clock + 1)
  {
    var M := Removed(N, n, e);
    RemovedTree(N, n, e);
    forall m | m in M && M[m].DirNode?
      ensures EntriesInOrder(M[m].entries, Aged(N, M, born, clock))
    {
      if m == n { WithoutInOrder(N[n].entries, e, born); }
      TargetsInside(M, m);
      AgedOrder(M[m].entries, N, M, born, clock);
    }
  }

  lemma TargetsInside(N: map<int, Node>, n: int)
    requires Tree(N) && n in N && N[n].DirNode?
    ensures forall i :: 0 <= i < |N[n].entries| ==> N[n].entries[i].inum in N
  {
    var at: map<int, Loc>, rank: map<int, nat> :| Named(N, at, rank);
    forall i | 0 <= i < |N[n].entries|
      ensures N[n].entries[i].inum in N
    {
      assert GoodEntry(N, at, rank, n, i);
    }
  }

  lemma SameKeysInOrder(N: map<int, Node>, n: int, content: seq<bv8>, born: map<int, nat>, clock: nat)
    requires InOrder(N, born, clock) && n in N && N[n].FileNode?
    ensures var M := N[n := FileNode(content)];
            InOrder(M, Aged(N, M, born, clock), clock + 1)
  {
    var M := N[n := FileNode(content)];
    assert Aged(N, M, born, clock) == born;
  }

  lemma NothingInOrder(N: map<int, Node>, born: map<int, nat>, clock: nat)
    requires InOrder(N, born, clock)
    ensures Aged(N, N, born, clock) == born && InOrder(N, born, clock + 1)
  {
  }

  lemma StepInOrder(v: Vol, op: Op, born: map<int, nat>, clock: nat)
    requires Consistent(v) && op.Valid() && InOrder(Abs(v), born, clock)
    ensures var w := Step(v, op).vol;
            Consistent(w) && InOrder(Abs(w), Aged(Abs(v), Abs(w), born, clock), clock + 1)
  {
    hide Owns, GoodObjs, Create, Write, Unlink, Lookup, Find, Entered, Removed, Abs, InOrder, Aged, Named;
    NothingInOrder(Abs(v), born, clock);
    match op
    case Make(parent, typ, name) =>
      CreateRefines(v, parent, typ, name);
      var out := Create(v, parent, typ, name);
      if out.ret >= 0 && Lookup(Abs(v), parent, name) == -ENOTFOUND {
        EnteredInOrder(Abs(v), parent, name, out.ret, NewNode(typ, parent), born, clock);
      }
    case Overwrite(inum, content, leftover) =>
      WriteRefines(v, inum, content, leftover);
      if Write(v, inum, content, leftover).ret >= 0 { SameKeysInOrder(Abs(v), inum, content, born, clock); }
    case Remove(parent, name) =>
      UnlinkRefines(v, parent, name);
      if Unlink(v, parent, name).ret >= 0 {
        RemovedInOrder(Abs(v), parent, Find(Abs(v)[parent].entries, name), born, clock);
      }
  }

  lemma {:induction false} RunInOrder(v: Vol, ops: seq<Op>, born: map<int, nat>, clock: nat)
    requires Consistent(v) && ValidOps(ops) && InOrder(Abs(v), born, clock)
    ensures InOrder(Abs(Run(v, ops)), Births(v, ops, born, clock), clock + |ops|)
    decreases |ops|
  {
    hide Owned, GoodObjs, Tree, Step, Abs, InOrder, Aged;
    if ops != [] {
      StepInOrder(v, ops[0], born, clock);
      var w := Step(v, ops[0]).vol;
      RunInOrder(w, ops[1..], Aged(Abs(v), Abs(w), born, clock), clock + 1);
    }
  }

  /** After any run of calls from a fresh image, every directory has its entries in the order in which what they name
      was last created. */
  lemma CreatedInOrder(v: Vol, ops: seq<Op>)
    requires Mkfs.OnlyRoot(v) && ValidOps(ops)
    ensures Consistent(v)
    ensures InOrder(Abs(Run(v, ops)), Births(v, ops, map[0 := 0], 1), 1 + |ops|)
  {
    hide Owned, GoodObjs, Tree, Abs;
    Mkfs.OnlyRootConsistent(v);
    RunInOrder(v, ops, map[0 := 0], 1);
  }
}
