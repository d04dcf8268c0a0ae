/** Runs: any sequence of calls, successful or failing, from the image that mkfs makes. */
module Runs {
  import opened Ufs
  import opened Volume
  import opened Storage
  import opened Objects
  import opened Namespace
  import opened Consistency
  import opened CreateSpec
  import opened WriteSpec
  import opened UnlinkSpec
  import Mkfs

  datatype Op =
    | Make(parent: int, typ: int, name: Name)
    | Overwrite(inum: int, content: seq<bv8>, leftover: Page)
    | Remove(parent: int, name: Name)
  {
    ghost predicate Valid() {
      Make? ==> IsType(typ)
    }
  }

  ghost function Step(v: Vol, op: Op): Outcome
    requires Consistent(v) && op.Valid()
  {
    match op
    case Make(parent, typ, name) => Create(v, parent, typ, name)
    case Overwrite(inum, content, leftover) => Write(v, inum, content, leftover)
    case Remove(parent, name) => Unlink(v, parent, name)
  }

  /** The same call on the namespace alone, given what it returned. */
  ghost function NodeStep(N: map<int, Node>, op: Op, ret: int): map<int, Node> {
    if ret < 0 then N
    else
      match op
      case Make(parent, typ, name) =>
        if Lookup(N, parent, name) == -ENOTFOUND && parent in N && N[parent].DirNode?
        then Entered(N, parent, name, ret, NewNode(typ, parent)) else N
      case Overwrite(inum, content, _) => N[inum := FileNode(content)]
      case Remove(parent, name) =>
        if parent in N && N[parent].DirNode? && Find(N[parent].entries, name) >= 0
        then Removed(N, parent, Find(N[parent].entries, name)) else N
  }

  /** One call keeps the volume consistent and does to the namespace what it is meant to; a failing one
      returns the volume it was given. */
  lemma StepRefines(v: Vol, op: Op)
    requires Consistent(v) && op.Valid()
    ensures var out := Step(v, op);
            && Consistent(out.vol) && out.vol.super == v.super
            && (out.ret < 0 ==> out.vol == v)
            && Abs(out.vol) == NodeStep(Abs(v), op, out.ret)
  {
    hide Owns, GoodObjs, Tree, Create, Write, Unlink, Lookup, Find, Entered, Removed, Abs;
    match op
    case Make(parent, typ, name) =>
      CreateRefines(v, parent, typ, name);
      if IsDir(v, parent) { DirObj(v, parent); }
    case Overwrite(inum, content, leftover) =>
      WriteRefines(v, inum, content, leftover);
    case Remove(parent, name) =>
      UnlinkRefines(v, parent, name);
  }

  ghost predicate ValidOps(ops: seq<Op>) {
    forall i :: 0 <= i < |ops| ==> ops[i].Valid()
  }

  ghost function Run(v: Vol, ops: seq<Op>): (v': Vol)
    requires Consistent(v) && ValidOps(ops)
    ensures Consistent(v')
    decreases |ops|
  {
    hide Create, Write, Unlink, Owned, GoodObjs, Tree;
    if ops == [] then v
    else
      StepRefines(v, ops[0]);
      Run(Step(v, ops[0]).vol, ops[1..])
  }

  /** What the calls of a run return. */
  ghost function Returns(v: Vol, ops: seq<Op>): (rets: seq<int>)
    requires Consistent(v) && ValidOps(ops)
    ensures |rets| == |ops|
    decreases |ops|
  {
    hide Create, Write, Unlink, Owned, GoodObjs, Tree;
    if ops == [] then []
    else
      StepRefines(v, ops[0]);
      [Step(v, ops[0]).ret] + Returns(Step(v, ops[0]).vol, ops[1..])
  }

  ghost function NodeRun(N: map<int, Node>, ops: seq<Op>, rets: seq<int>): map<int, Node>
    requires |rets| == |ops|
    decreases |ops|
  {
    if ops == [] then N else NodeRun(NodeStep(N, ops[0], rets[0]), ops[1..], rets[1..])
  }

  lemma {:induction false} RunRefines(v: Vol, ops: seq<Op>)
    requires Consistent(v) && ValidOps(ops)
    ensures Abs(Run(v, ops)) == NodeRun(Abs(v), ops, Returns(v, ops))
    ensures Run(v, ops).super == v.super
    decreases |ops|
  {
    hide Owned, GoodObjs, Tree, Step, NodeStep, Abs;
    if ops != [] {
      StepRefines(v, ops[0]);
      RunRefines(Step(v, ops[0]).vol, ops[1..]);
    }
  }

  /** In every state reachable from a fresh image the volume is consistent, and its namespace is what the
      same calls make of an empty root. */
  lemma ReachableConsistent(v: Vol, ops: seq<Op>)
    requires Mkfs.OnlyRoot(v) && ValidOps(ops)
    ensures Consistent(v) && Consistent(Run(v, ops))
    ensures Abs(Run(v, ops)) == NodeRun(map[0 := DirNode(0, [])], ops, Returns(v, ops))
  {
    Mkfs.OnlyRootConsistent(v);
    RunRefines(v, ops);
  }
}
