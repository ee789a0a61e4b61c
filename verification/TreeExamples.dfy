/** Runs of requests that show what a rename can do wrong. Every directory a request names is there. */
module TreeExamples {
  import opened Basics
  import opened Tree
  import opened TreeOps
  import opened TreeRuns
  import opened TreePaths

  const A: Name := [97]
  const B: Name := [98]

  function Made(s: State, d: Id, name: Name): State
    requires d in s.nodes && s.nodes[d].DirNode?
  {
    State(Link(s.nodes, d, s.next, DirNode(name, d, {})), s.next + 1)
  }

  lemma MkdirMakes(s: State, d: Id, name: Name)
    requires Good(s) && s.next < U64_LIMIT - 1 && d in s.nodes && s.nodes[d].DirNode?
    ensures Request(s, MkdirOp(d, name), Made(s, d, name)) && Good(Made(s, d, name))
    ensures forall e, k :: Owns(Made(s, d, name).nodes, e, k) <==> Owns(s.nodes, e, k) || (e == d && k == s.next)
    ensures forall k :: k in s.nodes && k != d ==> Made(s, d, name).nodes[k] == s.nodes[k]
  {
    OwnsAfterLink(s.nodes, d, s.next, DirNode(name, d, {}));
    RequestKeepsGood(s, MkdirOp(d, name), Made(s, d, name));
  }

  /** A run in which every directory a request names is there. */
  ghost predicate LiveRun(states: seq<State>, ops: seq<Op>) {
    Run(states, ops) && forall i :: 0 <= i < |ops| ==> DirectoriesLive(states[i].nodes, ops[i])
  }

  lemma StartIsGood()
    ensures Good(INITIAL) && forall e, k :: !Owns(INITIAL.nodes, e, k)
  {
    assert PathFromTo(INITIAL.nodes, [ROOT], ROOT, ROOT);
  }

  /** A rename is the step of a run. */
  lemma RenameSteps(s: State, fd: Id, fn: Name, x: Result<Id, Status>, td: Id, tn: Name, y: Result<Id, Status>)
    requires Good(s) && fd in s.nodes && td in s.nodes && Finds(s.nodes, fd, fn, x) && Finds(s.nodes, td, tn, y)
    ensures Request(s, RenameOp(fd, fn, td, tn), State(Rename(s.nodes, fd, fn, x, td, tn, y).nodes, s.next))
  {}

  /** Directories 2 and 3 side by side: moving 2/. into 3 leaves 2 in both places. */
  lemma DotMoves(s: State)
    requires Good(s) && forall e, k :: Owns(s.nodes, e, k) <==> e == ROOT && (k == 2 || k == 3)
    requires 2 in s.nodes && 3 in s.nodes && s.nodes[2].DirNode? && s.nodes[3].DirNode?
    ensures Finds(s.nodes, 2, DOT, Ok(2)) && Finds(s.nodes, 3, B, Err(NOENT))
    ensures var u := Rename(s.nodes, 2, DOT, Ok(2), 3, B, Err(NOENT)).nodes;
            !IsTree(u) && Owns(u, ROOT, 2) && Owns(u, 3, 2)
  {
    var t := s.nodes;
    assert Owns(t, ROOT, 2) && !Owns(t, 3, 2) && forall k: Id :: !Owns(t, 3, k) && !Owns(t, 2, k);
    if Below(t, 2, 3) { OnlyDirectoriesHaveEntriesBelow(t, 2, 3); }
    RenameKeepsTreeIff(t, 2, DOT, Ok(2), 3, B, Err(NOENT));
    assert DotMove(t, 2, DOT, Ok(2), 3, B, Err(NOENT));
  }

  /** mkdir a, mkdir b, rename a/. to b/b: afterwards a is in the root and in b. */
  lemma RenamingDotBreaks() returns (states: seq<State>, ops: seq<Op>)
    ensures LiveRun(states, ops) && ops == [MkdirOp(ROOT, A), MkdirOp(ROOT, B), RenameOp(2, DOT, 3, B)]
    ensures IsTree(states[2].nodes) && !IsTree(states[3].nodes)
    ensures Owns(states[3].nodes, ROOT, 2) && Owns(states[3].nodes, 3, 2)
  {
    StartIsGood();
    MkdirMakes(INITIAL, ROOT, A);
    var s1 := Made(INITIAL, ROOT, A);
    MkdirMakes(s1, ROOT, B);
    var s2 := Made(s1, ROOT, B);
    DotMoves(s2);
    RenameSteps(s2, 2, DOT, Ok(2), 3, B, Err(NOENT));
    var s3 := State(Rename(s2.nodes, 2, DOT, Ok(2), 3, B, Err(NOENT)).nodes, s2.next);
    ops := [MkdirOp(ROOT, A), MkdirOp(ROOT, B), RenameOp(2, DOT, 3, B)];
    states := [INITIAL, s1, s2, s3];
  }

  /** A run goes on with a mkdir. */
  lemma GoesOn(states: seq<State>, ops: seq<Op>, d: Id, name: Name) returns (states': seq<State>, ops': seq<Op>)
    requires LiveRun(states, ops) && Good(states[|ops|]) && states[|ops|].next < U64_LIMIT - 1
    requires d in states[|ops|].nodes && states[|ops|].nodes[d].DirNode?
    ensures LiveRun(states', ops') && ops' == ops + [MkdirOp(d, name)]
    ensures states' == states + [Made(states[|ops|], d, name)] && Good(states'[|ops'|])
  {
    MkdirMakes(states[|ops|], d, name);
    states', ops' := states + [Made(states[|ops|], d, name)], ops + [MkdirOp(d, name)];
  }

  /** mkdir a, mkdir a: afterwards the root has two entries of that name. */
  lemma MkdirTwiceBreaksNames() returns (states: seq<State>, ops: seq<Op>)
    ensures LiveRun(states, ops) && ops == [MkdirOp(ROOT, A), MkdirOp(ROOT, A)]
    ensures UniqueNames(states[1].nodes) && !UniqueNames(states[2].nodes)
  {
    StartIsGood();
    states, ops := GoesOn([INITIAL], [], ROOT, A);
    OwnsAfterLink(INITIAL.nodes, ROOT, 2, DirNode(A, ROOT, {}));
    var t := states[1].nodes;
    states, ops := GoesOn(states, ops, ROOT, A);
    OwnsAfterLink(t, ROOT, 3, DirNode(A, ROOT, {}));
    assert Owns(states[2].nodes, ROOT, 2) && Owns(states[2].nodes, ROOT, 3);
  }

  /** The root, and directories 2, 3 and 4, each in the one before. */
  ghost predicate IsChain(t: Nodes) {
    && (forall e, k :: Owns(t, e, k) <==> (e == ROOT && k == 2) || (e == 2 && k == 3) || (e == 3 && k == 4))
    && (forall k :: 2 <= k <= 4 ==> k in t && t[k].DirNode?) && t[2].name == A && t[4].name == B
  }

  lemma MadeIsChain(s1: State, s2: State, s3: State)
    requires s1 == State(Link(INITIAL.nodes, ROOT, 2, DirNode(A, ROOT, {})), 3)
    requires 2 in s1.nodes && s1.nodes[2].DirNode? && s2 == Made(s1, 2, B)
    requires 3 in s2.nodes && s2.nodes[3].DirNode? && s3 == Made(s2, 3, B)
    ensures IsChain(s3.nodes)
  {
    OwnsAfterLink(INITIAL.nodes, ROOT, 2, DirNode(A, ROOT, {}));
    OwnsAfterLink(s1.nodes, 2, 3, DirNode(B, 2, {}));
    OwnsAfterLink(s2.nodes, 3, 4, DirNode(B, 3, {}));
  }

  lemma ChainIsMade() returns (states: seq<State>, ops: seq<Op>)
    ensures LiveRun(states, ops) && ops == [MkdirOp(ROOT, A), MkdirOp(2, B), MkdirOp(3, B)]
    ensures Good(states[3]) && IsChain(states[3].nodes)
  {
    StartIsGood();
    states, ops := GoesOn([INITIAL], [], ROOT, A);
    states, ops := GoesOn(states, ops, 2, B);
    states, ops := GoesOn(states, ops, 3, B);
    MadeIsChain(states[1], states[2], states[3]);
  }

  /** A chain of directories 2, 3, 4: moving 2 to the place of 4 fails, and 4 is gone. */
  lemma ChainMoves(s: State)
    requires Good(s) && IsChain(s.nodes)
    ensures Finds(s.nodes, ROOT, A, Ok(2)) && Finds(s.nodes, 3, B, Ok(4))
    ensures Rename(s.nodes, ROOT, A, Ok(2), 3, B, Ok(4)) == Outcome(Unlink(s.nodes, 3, 4), Err(INVAL))
  {
    var t := s.nodes;
    assert Owns(t, ROOT, 2) && Owns(t, 2, 3) && Owns(t, 3, 4);
    if t[4].kids != {} {
      var k :| k in t[4].kids;
      assert Owns(t, 4, k);
    }
    assert PathFromTo(t, [2, 3], 2, 3);
    OrdinaryRename(t, ROOT, A, Ok(2), 3, B, Ok(4));
  }

  /** mkdir a, mkdir a/b, mkdir a/b/b, rename a to a/b/b: refused, and a/b/b is gone. */
  lemma RefusedRenameRemovesTarget() returns (states: seq<State>, ops: seq<Op>)
    ensures LiveRun(states, ops) && ops == [MkdirOp(ROOT, A), MkdirOp(2, B), MkdirOp(3, B), RenameOp(ROOT, A, 3, B)]
    ensures IsTree(states[3].nodes) && Finds(states[3].nodes, ROOT, A, Ok(2)) && Finds(states[3].nodes, 3, B, Ok(4))
    ensures Rename(states[3].nodes, ROOT, A, Ok(2), 3, B, Ok(4)).reply == Err(INVAL)
    ensures Owns(states[3].nodes, 3, 4) && 4 in states[3].nodes && 4 !in states[4].nodes
  {
    var front, made := ChainIsMade();
    var s := front[3];
    ChainMoves(s);
    RenameSteps(s, ROOT, A, Ok(2), 3, B, Ok(4));
    states, ops := front + [State(Unlink(s.nodes, 3, 4), s.next)], made + [RenameOp(ROOT, A, 3, B)];
    assert Owns(s.nodes, 3, 4);
  }
}
