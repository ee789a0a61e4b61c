/** Whole runs of requests against the file system: the tree shape and the freshness of ids
    hold in every state a run reaches. */
module TreeRuns {
  import opened Basics
  import opened Tree
  import opened TreeOps

  /** `next` is the atomic 64-bit counter new ids come from. */
  datatype State = State(nodes: Nodes, next: nat)

  datatype Op =
    | MkdirOp(dir: Id, name: Name)
    | CreateOp(dir: Id, name: Name, guarded: bool)
    | RemoveOp(dir: Id, name: Name)
    | RenameOp(fd: Id, fn: Name, td: Id, tn: Name)
    | DataOp  // setattr, write and every read: no entry moves

  const INITIAL: State := State(map[ROOT := DirNode([47], 0, {})], 2)

  function Bump(n: nat): nat {
    (n + 1) % 0x1_0000_0000_0000_0000
  }

  /** What the file system does. */
  ghost predicate Step(s: State, op: Op, s': State)
    requires IsTree(s.nodes)
  {
    match op
    case MkdirOp(d, name) =>
      s' == State(Push(s.nodes, d, s.next, DirNode(name, d, {})).nodes, Bump(s.next))
    case CreateOp(d, name, _) =>
      && s'.next == Bump(s.next)
      && exists y :: Finds(s.nodes, d, name, y) &&
           s'.nodes == if y == Err(NOENT) then Push(s.nodes, d, s.next, FileNode(name)).nodes else s.nodes
    case RemoveOp(d, name) =>
      && s'.next == s.next
      && exists y :: Finds(s.nodes, d, name, y) && s'.nodes == Remove(s.nodes, d, name, y).nodes
    case RenameOp(fd, fn, td, tn) =>
      && s'.next == s.next
      && exists x, y :: Finds(s.nodes, fd, fn, x) && Finds(s.nodes, td, tn, y) &&
           s'.nodes == Rename(s.nodes, fd, fn, x, td, tn, y).nodes
    case DataOp => s' == s
  }

  /** The request handlers first ask for the attributes of every directory the request names. */
  predicate DirectoriesLive(t: Nodes, op: Op) {
    match op
    case RenameOp(fd, _, td, _) => fd in t && td in t
    case DataOp => true
    case _ => op.dir in t
  }

  ghost predicate Taken(t: Nodes, d: Id, name: Name) {
    exists c: Id :: Finds(t, d, name, Ok(c))
  }

  /** A guarded create looks the name up as well, before it asks the file system. */
  ghost predicate Refused(t: Nodes, op: Op) {
    !DirectoriesLive(t, op) || (op.CreateOp? && op.guarded && Taken(t, op.dir, op.name))
  }

  ghost predicate Request(s: State, op: Op, s': State)
    requires IsTree(s.nodes)
  {
    if Refused(s.nodes, op) then s' == s else Step(s, op, s')
  }

  /** A rename that the handler lets through and that may relink "." or "..". */
  ghost predicate MovesDots(t: Nodes, op: Op) {
    && IsTree(t) && op.RenameOp? && DirectoriesLive(t, op)
    && exists x, y :: Finds(t, op.fd, op.fn, x) && Finds(t, op.td, op.tn, y)
                      && DotMove(t, op.fd, op.fn, x, op.td, op.tn, y)
  }

  ghost predicate Good(s: State) {
    IsTree(s.nodes) && 2 <= s.next < 0x1_0000_0000_0000_0000 && forall k :: k in s.nodes ==> ROOT <= k < s.next
  }

  /** Without wrap-around of the counter, a request keeps the tree, unless it relinks "." or "..". */
  lemma RequestKeepsGood(s: State, op: Op, s': State)
    requires Good(s) && s.next < U64_LIMIT - 1 && Request(s, op, s') && !MovesDots(s.nodes, op)
    ensures Good(s') && s.next <= s'.next <= s.next + 1
    ensures forall k :: k in s'.nodes && k !in s.nodes ==> k == s.next && s'.next == s.next + 1
  {
    if !Refused(s.nodes, op) {
      match op
      case MkdirOp(d, name) => PushKeepsGood(s, d, DirNode(name, d, {}));
      case CreateOp(d, name, _) => PushKeepsGood(s, d, FileNode(name));
      case RemoveOp(d, name) =>
        var y :| Finds(s.nodes, d, name, y) && s'.nodes == Remove(s.nodes, d, name, y).nodes;
        RemoveKeepsTree(s.nodes, d, name, y);
      case RenameOp(fd, fn, td, tn) =>
        var x, y :| Finds(s.nodes, fd, fn, x) && Finds(s.nodes, td, tn, y) &&
          s'.nodes == Rename(s.nodes, fd, fn, x, td, tn, y).nodes;
        RenameKeepsGoodIff(s, fd, fn, x, td, tn, y);
      case DataOp =>
    }
  }

  lemma PushKeepsGood(s: State, d: Id, n: Node)
    requires Good(s) && s.next < U64_LIMIT - 1 && d in s.nodes && (n.DirNode? ==> n.kids == {} && n.parent == d)
    ensures var nodes := Push(s.nodes, d, s.next, n).nodes;
            && Good(State(nodes, Bump(s.next))) && Bump(s.next) == s.next + 1
            && forall k :: k in nodes ==> k in s.nodes || k == s.next
  {
    PushKeepsTreeIff(s.nodes, d, s.next, n);
  }

  /** Between directories that are there, that is exactly when a rename does. */
  lemma RenameKeepsGoodIff(s: State, fd: Id, fn: Name, x: Result<Id, Status>, td: Id, tn: Name, y: Result<Id, Status>)
    requires Good(s) && fd in s.nodes && td in s.nodes && Finds(s.nodes, fd, fn, x) && Finds(s.nodes, td, tn, y)
    ensures var nodes := Rename(s.nodes, fd, fn, x, td, tn, y).nodes;
            && (Good(State(nodes, s.next)) <==> !DotMove(s.nodes, fd, fn, x, td, tn, y))
            && nodes.Keys <= s.nodes.Keys
  {
    RenameKeepsTreeIff(s.nodes, fd, fn, x, td, tn, y);
    RenameAddsNoEntry(s.nodes, fd, fn, x, td, tn, y);
  }

  /** So every request that may relink "." or ".." may break the tree. */
  lemma MovingDotsBreaks(s: State, op: Op) returns (s': State)
    requires Good(s) && MovesDots(s.nodes, op)
    ensures Request(s, op, s') && !IsTree(s'.nodes)
  {
    var x, y :| Finds(s.nodes, op.fd, op.fn, x) && Finds(s.nodes, op.td, op.tn, y)
                && DotMove(s.nodes, op.fd, op.fn, x, op.td, op.tn, y);
    RenameKeepsTreeIff(s.nodes, op.fd, op.fn, x, op.td, op.tn, y);
    s' := State(Rename(s.nodes, op.fd, op.fn, x, op.td, op.tn, y).nodes, s.next);
  }

  lemma RenameAddsNoEntry(t: Nodes, fd: Id, fn: Name, x: Result<Id, Status>, td: Id, tn: Name, y: Result<Id, Status>)
    requires IsTree(t) && Finds(t, fd, fn, x) && Finds(t, td, tn, y) && td in t
    ensures Rename(t, fd, fn, x, td, tn, y).nodes.Keys <= t.Keys
  {}

  /** A run from the freshly created file system. */
  ghost predicate Run(states: seq<State>, ops: seq<Op>) {
    && |states| == |ops| + 1 && states[0] == INITIAL
    && forall i :: 0 <= i < |ops| ==> IsTree(states[i].nodes) ==> Request(states[i], ops[i], states[i + 1])
  }

  ghost predicate NoDotsMove(states: seq<State>, ops: seq<Op>)
    requires |states| == |ops| + 1
  {
    forall j :: 0 <= j < |ops| ==> !MovesDots(states[j].nodes, ops[j])
  }

  lemma RunSteps(states: seq<State>, ops: seq<Op>, j: nat)
    requires Run(states, ops) && NoDotsMove(states, ops) && j < |ops|
    requires Good(states[j]) && states[j].next < U64_LIMIT - 1
    ensures Good(states[j + 1]) && states[j].next <= states[j + 1].next <= states[j].next + 1
    ensures forall k :: k in states[j + 1].nodes && k !in states[j].nodes ==> k == states[j].next < states[j + 1].next
  {
    RequestKeepsGood(states[j], ops[j], states[j + 1]);
  }

  /** In every state of every run that relinks no "." or ".." the entries form one rooted tree and every id is
      below the counter. */
  lemma {:induction false} RunKeepsTree(states: seq<State>, ops: seq<Op>, i: nat)
    requires Run(states, ops) && i < |states| <= U64_LIMIT - 3
    requires NoDotsMove(states, ops)
    ensures Good(states[i]) && states[i].next <= 2 + i
  {
    if i == 0 {
      assert PathFromTo(INITIAL.nodes, [ROOT], ROOT, ROOT);
    } else {
      RunKeepsTree(states, ops, i - 1);
      RunSteps(states, ops, i - 1);
    }
  }

  lemma StaysGone(states: seq<State>, ops: seq<Op>, j: nat, k: Id)
    requires Run(states, ops) && NoDotsMove(states, ops) && j < |ops| <= U64_LIMIT - 4
    requires k < states[j].next && k !in states[j].nodes
    ensures k < states[j + 1].next && k !in states[j + 1].nodes
  {
    RunKeepsTree(states, ops, j);
    RunSteps(states, ops, j);
  }

  /** An id that has been handed out and is gone stays gone. */
  lemma {:induction false} IdsAreNotReused(states: seq<State>, ops: seq<Op>, i: nat, j: nat, k: Id)
    requires Run(states, ops) && NoDotsMove(states, ops) && i <= j < |states| <= U64_LIMIT - 3
    requires k < states[i].next && k !in states[i].nodes
    ensures k < states[j].next && k !in states[j].nodes
  {
    if i < j {
      IdsAreNotReused(states, ops, i, j - 1, k);
      StaysGone(states, ops, j - 1, k);
    }
  }

  // ---- A concrete operation that breaks the tree when it reaches the file system unchecked ----

  /** A file renamed into a directory that is not there is lost. */
  lemma RenamingIntoNowhereBreaks()
    ensures exists t: Nodes, fd, fn, td, tn, x, y ::
      IsTree(t) && !IsDots(fn) && Finds(t, fd, fn, x) && Finds(t, td, tn, y)
      && !IsTree(Rename(t, fd, fn, x, td, tn, y).nodes)
  {
    assert PathFromTo(INITIAL.nodes, [ROOT], ROOT, ROOT);
    var t := Link(INITIAL.nodes, ROOT, 2, FileNode([97]));
    LinkKeepsTree(INITIAL.nodes, ROOT, 2, FileNode([97]));
    assert Owns(t, ROOT, 2);
    assert Finds(t, ROOT, [97], Ok(2)) && Finds(t, 9, [97], Err(NOENT));
    RenameKeepsTreeIff(t, ROOT, [97], Ok(2), 9, [97], Err(NOENT));
    assert OrphanMove(t, Ok(2), 9);
  }
}
