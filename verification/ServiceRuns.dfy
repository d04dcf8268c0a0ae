/** Runs of requests: the service as a store of files by path. */
module ServiceRuns {
  import opened Ufs
  import opened Volume
  import opened Storage
  import opened Objects
  import opened Namespace
  import opened Consistency
  import opened Paths
  import opened Growth
  import opened PathText
  import opened ServiceSpec
  import opened ServiceTheorems
  import opened DeleteSpec
  import Mkfs

  datatype Request =
    | GetRequest(path: Name)
    | PutRequest(path: Name, content: seq<bv8>, leftover: Page)
    | DeleteRequest(path: Name)

  /** The volume and the answer after one request. */
  ghost function Serve(v: Vol, r: Request): (Vol, Reply)
    requires Consistent(v)
  {
    match r
    case GetRequest(path) => (v, Get(Abs(v), path))
    case PutRequest(path, content, leftover) => Put(v, path, content, leftover)
    case DeleteRequest(path) => Delete(v, path)
  }

  lemma ServeConsistent(v: Vol, r: Request)
    requires Consistent(v)
    ensures Consistent(Serve(v, r).0)
  {
    hide Owned, GoodObjs, Tree, Abs, Put, Delete, Get;
    match r
    case GetRequest(_) =>
    case PutRequest(path, content, leftover) => PutEffect(v, path, content, leftover);
    case DeleteRequest(path) => DeleteEffect(v, path);
  }

  ghost function ServeAll(v: Vol, rs: seq<Request>): (w: Vol)
    requires Consistent(v)
    ensures Consistent(w)
    decreases |rs|
  {
    hide Serve, Owned, GoodObjs, Tree;
    if rs == [] then v
    else
      ServeConsistent(v, rs[0]);
      ServeAll(Serve(v, rs[0]).0, rs[1..])
  }

  /** A request that names, without dots, something else than `path`. */
  ghost predicate Elsewhere(r: Request, path: Name) {
    match r
    case GetRequest(_) => true
    case PutRequest(other, _, _) => Plain(Components(other)) && Components(other) != Components(path)
    case DeleteRequest(other) => Plain(Components(other)) && Components(other) != Components(path)
  }

  lemma FileAnswer(N: map<int, Node>, path: Name)
    requires Tree(N) && Get(N, path).Bytes?
    ensures var f := Walk(N, 0, Components(path));
            f >= 0 && f in N && N[f] == FileNode(Get(N, path).content)
  {
    hide Components, Tree;
    NegativesOutside(N);
  }

  lemma KeptAnswer(N: map<int, Node>, M: map<int, Node>, path: Name)
    requires Tree(N) && Tree(M) && Extends(N, M) && Get(N, path).Bytes?
    ensures Get(M, path) == Get(N, path)
  {
    hide Components, Tree;
    FileAnswer(N, path);
    var f := Walk(N, 0, Components(path));
    WalkKept(N, M, 0, Components(path));
    assert Kept(N[f], M[f]);
  }

  lemma PutElsewhere(v: Vol, path: Name, content: seq<bv8>, leftover: Page, other: Name)
    requires Consistent(v) && Plain(Components(path)) && Get(Abs(v), path).Bytes?
    requires Plain(Components(other)) && Components(other) != Components(path)
    ensures var w := Put(v, other, content, leftover).0;
            Consistent(w) && Get(Abs(w), path) == Get(Abs(v), path)
  {
    hide Owned, GoodObjs, Tree, Abs, Put, Get, Components, Plain;
    PutEffect(v, other, content, leftover);
    var r := Put(v, other, content, leftover);
    if r.1 == Ok {
      PutThenGet(v, other, content, leftover, path);
      FileAnswer(Abs(v), path);
      NegativesOutside(Abs(r.0));
      var f, m := Walk(Abs(v), 0, Components(path)), Walk(Abs(r.0), 0, Components(other));
      WalkKeptBut(Abs(v), Abs(r.0), m, 0, Components(path));
      if f == m { PathUnique(Abs(r.0), Components(path), Components(other)); }
    } else {
      KeptAnswer(Abs(v), Abs(r.0), path);
    }
  }

  lemma DeleteElsewhere(v: Vol, path: Name, other: Name)
    requires Consistent(v) && Plain(Components(path)) && Get(Abs(v), path).Bytes?
    requires Plain(Components(other)) && Components(other) != Components(path)
    ensures var w := Delete(v, other).0;
            Consistent(w) && Get(Abs(w), path) == Get(Abs(v), path)
  {
    hide Owned, GoodObjs, Tree, Abs, Delete, Get, Components, Plain, Find, Dirs, Last, Trimmed;
    DeleteEffect(v, other);
    var r := Delete(v, other);
    if r.1 == Ok {
      DeleteThenGet(v, other, path);
      var d, e :| NamesEntry(Abs(v), other, d, e) && GetAfter(Abs(v), Abs(r.0), d, e, path);
      FileAnswer(Abs(v), path);
      WalkToEntry(Abs(v), other, d, e);
      var f, c := Walk(Abs(v), 0, Components(path)), Abs(v)[d].entries[e].inum;
      if f == c { PathUnique(Abs(v), Components(path), Components(other)); }
    }
  }

  /** A stored file stays as it is, whatever is requested under other names, successfully or not. */
  lemma {:induction false} FilesPersist(v: Vol, path: Name, rs: seq<Request>)
    requires Consistent(v) && Plain(Components(path)) && Get(Abs(v), path).Bytes?
    requires forall i :: 0 <= i < |rs| ==> Elsewhere(rs[i], path)
    ensures Get(Abs(ServeAll(v, rs)), path) == Get(Abs(v), path)
    decreases |rs|
  {
    hide Owned, GoodObjs, Tree, Abs, Put, Delete, Get, Components, Plain;
    if rs != [] {
      assert Elsewhere(rs[0], path);
      ServeConsistent(v, rs[0]);
      match rs[0] {
        case GetRequest(_) =>
        case PutRequest(other, content, leftover) => PutElsewhere(v, path, content, leftover, other);
        case DeleteRequest(other) => DeleteElsewhere(v, path, other);
      }
      FilesPersist(Serve(v, rs[0]).0, path, rs[1..]);
    }
  }

  /** From a fresh volume on, after any requests, a successful PUT, and any requests under other names, GET
      answers with what was put. */
  lemma LastPutWins(v: Vol, before: seq<Request>, path: Name, content: seq<bv8>, leftover: Page, after: seq<Request>)
    requires Mkfs.OnlyRoot(v) && Plain(Components(path))
    requires forall i :: 0 <= i < |after| ==> Elsewhere(after[i], path)
    ensures Consistent(v)
    ensures var w := ServeAll(v, before);
            var r := Put(w, path, content, leftover);
            Consistent(r.0) && (r.1 == Ok ==> Get(Abs(ServeAll(r.0, after)), path) == Bytes(content))
  {
    hide Owned, GoodObjs, Tree, Abs, Put, Get, Components, Plain, Mkfs.OnlyRoot;
    Mkfs.OnlyRootConsistent(v);
    var w := ServeAll(v, before);
    PutEffect(w, path, content, leftover);
    if Put(w, path, content, leftover).1 == Ok {
      PutThenGet(w, path, content, leftover, path);
      FilesPersist(Put(w, path, content, leftover).0, path, after);
    }
  }
}
