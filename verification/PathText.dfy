/** How the service cuts a request path into names. */
module PathText {
  import opened Ufs

  /** The position of the first slash, or -1. */
  function FirstSlash(path: Name): (t: int)
    ensures -1 <= t < |path|
    ensures t >= 0 ==> path[t] == '/'
    ensures forall i :: 0 <= i < (if t < 0 then |path| else t) ==> path[i] != '/'
  {
    if path == "" then -1
    else if path[0] == '/' then 0
    else
      var t := FirstSlash(path[1..]);
      if t < 0 then -1 else t + 1
  }

  /** The path up to its first slash, and from behind it. */
  function Head(path: Name): Name {
    var t := FirstSlash(path);
    if t < 0 then path else path[..t]
  }

  function Tail(path: Name): (rest: Name)
    ensures path != "" ==> |rest| < |path|
  {
    var t := FirstSlash(path);
    if t < 0 then "" else path[t + 1..]
  }

  /** The names before the last slash. */
  function Dirs(path: Name): seq<Name>
    decreases |path|
  {
    if FirstSlash(path) < 0 then [] else [Head(path)] + Dirs(Tail(path))
  }

  /** What follows the last slash. */
  function Last(path: Name): Name
    decreases |path|
  {
    if FirstSlash(path) < 0 then path else Last(Tail(path))
  }

  /** The names that a walk to the object itself goes through: a trailing slash adds none. */
  function Components(path: Name): seq<Name> {
    if Last(path) == "" then Dirs(path) else Dirs(path) + [Last(path)]
  }

  /** The names put together again, with a slash between them. */
  function Join(dirs: seq<Name>, last: Name): Name {
    if dirs == [] then last else dirs[0] + "/" + Join(dirs[1..], last)
  }

  lemma JoinStep(head: Name, dirs: seq<Name>, last: Name)
    ensures Join([head] + dirs, last) == head + "/" + Join(dirs, last)
  {
    assert ([head] + dirs)[1..] == dirs;
  }

  lemma CutInTwo(path: Name)
    requires FirstSlash(path) >= 0
    ensures path == Head(path) + "/" + Tail(path) && '/' !in Head(path)
  {
    hide FirstSlash;
    var t := FirstSlash(path);
    assert path == path[..t] + [path[t]] + path[t + 1..];
  }

  /** Cutting loses nothing: the names, joined by slashes, are the path. */
  lemma {:induction false} JoinCut(path: Name)
    ensures Join(Dirs(path), Last(path)) == path
    decreases |path|
  {
    hide Join, FirstSlash, Head, Tail;
    if FirstSlash(path) >= 0 {
      CutInTwo(path);
      JoinCut(Tail(path));
      JoinStep(Head(path), Dirs(Tail(path)), Last(Tail(path)));
    } else {
      JoinNone(path);
    }
  }

  lemma JoinNone(last: Name)
    ensures Join([], last) == last
  {
  }

  /** No name holds a slash. */
  lemma {:induction false} NamesHaveNoSlash(path: Name)
    ensures forall i :: 0 <= i < |Dirs(path)| ==> '/' !in Dirs(path)[i]
    ensures '/' !in Last(path)
    decreases |path|
  {
    hide Head, Tail;
    if FirstSlash(path) >= 0 {
      CutInTwo(path);
      NamesHaveNoSlash(Tail(path));
    }
  }

  lemma SlashAppended(p: Name)
    ensures FirstSlash(p + "/") >= 0
    ensures FirstSlash(p) >= 0 ==> Head(p + "/") == Head(p) && Tail(p + "/") == Tail(p) + "/"
    ensures FirstSlash(p) < 0 ==> Head(p + "/") == p && Tail(p + "/") == ""
  {
    hide FirstSlash;
    var q := p + "/";
    var t, u := FirstSlash(p), FirstSlash(q);
    assert q[|p|] == '/';
    assert forall i :: 0 <= i < |p| ==> q[i] == p[i];
    if t >= 0 {
      assert u == t && q[..t] == p[..t] && q[t + 1..] == p[t + 1..] + "/";
    } else {
      assert u == |p| && q[..|p|] == p && q[|p| + 1..] == "";
    }
  }

  lemma CutAt(path: Name)
    requires FirstSlash(path) >= 0
    ensures Dirs(path) == [Head(path)] + Dirs(Tail(path)) && Last(path) == Last(Tail(path))
  {
    hide FirstSlash, Head, Tail;
  }

  lemma CutNone(path: Name)
    requires FirstSlash(path) < 0
    ensures Dirs(path) == [] && Last(path) == path
  {
  }

  lemma {:induction false} TrailingSlash(p: Name)
    ensures Dirs(p + "/") == Dirs(p) + [Last(p)]
    ensures Last(p + "/") == ""
    decreases |p|
  {
    hide Dirs, Last, FirstSlash, Head, Tail;
    SlashAppended(p);
    CutAt(p + "/");
    if FirstSlash(p) >= 0 {
      CutAt(p);
      ShorterTail(p);
      TrailingSlash(Tail(p));
    } else {
      CutNone(p);
      NoSlashInNothing();
      CutNone("");
    }
  }

  lemma NoSlashInNothing()
    ensures FirstSlash("") < 0
  {
  }

  lemma ShorterTail(p: Name)
    requires FirstSlash(p) >= 0
    ensures |Tail(p)| < |p|
  {
  }
}
