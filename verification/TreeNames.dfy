/** Sibling names over whole runs. */
module TreeNames {
  import opened Basics
  import opened Tree
  import opened TreeOps
  import opened TreePaths
  import opened TreeRuns

  /** A directory is made under a name that no sibling has. */
  ghost predicate TakesFreeName(t: Nodes, op: Op) {
    op.MkdirOp? ==> forall c: Id :: !Named(t, op.dir, op.name, c)
  }

  lemma RequestKeepsUniqueNames(s: State, op: Op, s': State)
    requires Good(s) && UniqueNames(s.nodes) && Request(s, op, s')
    requires !MovesDots(s.nodes, op) && TakesFreeName(s.nodes, op)
    ensures UniqueNames(s'.nodes)
  {
    if !Refused(s.nodes, op) {
      match op
      case MkdirOp(d, name) => PushKeepsUniqueNamesIff(s.nodes, d, s.next, DirNode(name, d, {}));
      case CreateOp(d, name, _) =>
        var y :| Finds(s.nodes, d, name, y) &&
          s'.nodes == if y == Err(NOENT) then Push(s.nodes, d, s.next, FileNode(name)).nodes else s.nodes;
        if y == Err(NOENT) { CreateKeepsUniqueNames(s.nodes, d, name, y, s.next, FileNode(name)); }
      case RemoveOp(d, name) =>
        var y :| Finds(s.nodes, d, name, y) && s'.nodes == Remove(s.nodes, d, name, y).nodes;
        RemoveKeepsUniqueNames(s.nodes, d, name, y);
      case RenameOp(fd, fn, td, tn) =>
        var x, y :| Finds(s.nodes, fd, fn, x) && Finds(s.nodes, td, tn, y) &&
          s'.nodes == Rename(s.nodes, fd, fn, x, td, tn, y).nodes;
        RenameKeepsUniqueNames(s.nodes, fd, fn, x, td, tn, y);
      case DataOp =>
    }
  }

  /** In every run whose directories are made under free names, names stay unique. */
  lemma {:induction false} RunKeepsUniqueNames(states: seq<State>, ops: seq<Op>, i: nat)
    requires Run(states, ops) && i < |states| <= U64_LIMIT - 3
    requires NoDotsMove(states, ops) && forall j :: 0 <= j < |ops| ==> TakesFreeName(states[j].nodes, ops[j])
    ensures UniqueNames(states[i].nodes)
  {
    if i > 0 {
      RunKeepsUniqueNames(states, ops, i - 1);
      RunKeepsTree(states, ops, i - 1);
      RequestKeepsUniqueNames(states[i - 1], ops[i - 1], states[i]);
    }
  }
}
