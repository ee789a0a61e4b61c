/**
 What the file system's operations do to the directory structure, and which of them keep it
 one rooted tree. A lookup is described by `Finds`, which leaves open which of several
 siblings with the same name is found.
 */
module TreeOps {
  import opened Basics
  import opened Tree

  type Reply = Result<(), Status>

  datatype Outcome = Outcome(nodes: Nodes, reply: Reply)

  ghost predicate Finds(t: Nodes, d: Id, name: Name, r: Result<Id, Status>) {
    if d !in t then r == Err(NOENT)
    else if t[d].FileNode? then r == Err(NOTDIR)
    else if name == DOT then r == Ok(d)
    else if name == DOTDOT then r == if t[d].parent in t then Ok(t[d].parent) else Err(SERVERFAULT)
    else match r
      case Ok(c) => Owns(t, d, c) && c in t && t[c].name == name
      case Err(e) => e == NOENT && forall c :: Owns(t, d, c) && c in t ==> t[c].name != name
  }

  // ---- Operations ----

  /** The entry goes in first and the parent is looked up afterwards, so a new directory can be
      its own parent. */
  function Push(t: Nodes, parent: Id, id: Id, n: Node): Outcome {
    if id in t then Outcome(t, Err(EXIST))
    else
      var t1 := t[id := n];
      if parent !in t1 then Outcome(t, Err(NOENT))
      else if t1[parent].FileNode? then Outcome(t, Err(NOTDIR))
      else Outcome(t1[parent := WithKids(t1[parent], t1[parent].kids + {id})], Ok(()))
  }

  function Remove(t: Nodes, d: Id, name: Name, y: Result<Id, Status>): Outcome
    requires !IsDots(name) && y.Ok? ==> Owns(t, d, y.value) && y.value in t
  {
    if IsDots(name) then Outcome(t, Err(INVAL))
    else if y.Err? then Outcome(t, Err(y.error))
    else if !IsLeaf(t[y.value]) then Outcome(t, Err(NOTEMPTY))
    else Outcome(Unlink(t, d, y.value), Ok(()))
  }

  /** Why a rename of `x` is refused for what it finds under the new name, if it is. */
  function Clash(t: Nodes, x: Id, y: Result<Id, Status>): Option<Status>
    requires x in t && (y.Ok? ==> y.value in t)
  {
    match y
    case Err(e) => if e == NOENT then None else Some(e)
    case Ok(c) =>
      if t[x].FileNode? != t[c].FileNode? then Some(NOTDIR)
      else if !IsLeaf(t[c]) then Some(NOTEMPTY)
      else None
  }

  /** Nothing is in the way of `x`, or an entry of its kind that holds nothing. */
  predicate MayReplace(t: Nodes, x: Id, y: Result<Id, Status>)
    requires x in t && (y.Ok? ==> y.value in t)
  {
    match y
    case Err(e) => e == NOENT
    case Ok(c) => (t[x].FileNode? && t[c].FileNode?) || (t[x].DirNode? && t[c].DirNode? && t[c].kids == {})
  }

  /** Rename of `fn` in `fd`, found to be `x`, to `tn` in `td`, found to be `y`. */
  ghost function Rename(t: Nodes, fd: Id, fn: Name, x: Result<Id, Status>, td: Id, tn: Name, y: Result<Id, Status>)
    : Outcome
    requires IsTree(t) && Finds(t, fd, fn, x) && Finds(t, td, tn, y)
  {
    if x.Err? then Outcome(t, Err(x.error))
    else if fd == td && fn == tn then Outcome(t, Ok(()))
    else if Clash(t, x.value, y).Some? then Outcome(t, Err(Clash(t, x.value, y).value))
    else if y.Ok? && IsDots(tn) then Outcome(t, Err(INVAL))
    else
      var t1 := if y.Ok? then Unlink(t, td, y.value) else t;
      if t[x.value].DirNode? && td !in t then Outcome(t1, Err(NOENT))
      else if t[x.value].DirNode? && Below(t, x.value, td) then Outcome(t1, Err(INVAL))
      else Relink(t1, fd, x.value, td, tn)
  }

  /** The last three steps of a rename, each of which can still fail. */
  function Relink(t: Nodes, fd: Id, x: Id, td: Id, tn: Name): Outcome {
    if fd !in t then Outcome(t, Err(SERVERFAULT))
    else if t[fd].FileNode? then Outcome(t, Err(NOTDIR))
    else PutInto(Detach(t, fd, x), x, td, tn)
  }

  function PutInto(t: Nodes, x: Id, td: Id, tn: Name): Outcome {
    if td !in t then Outcome(t, Err(SERVERFAULT))
    else if t[td].FileNode? then Outcome(t, Err(NOTDIR))
    else if x in t[td].kids then Outcome(t, Err(SERVERFAULT))
    else if x !in t then Outcome(t[td := WithKids(t[td], t[td].kids + {x})], Err(SERVERFAULT))
    else Outcome(Attach(t, x, td, tn), Ok(()))
  }

  /** What a lookup answers in a tree. The parent of a directory is the one that has it; the root has none. */
  lemma LookupAnswers(t: Nodes, d: Id, name: Name, r: Result<Id, Status>)
    requires IsTree(t) && Finds(t, d, name, r)
    ensures d !in t ==> r == Err(NOENT)
    ensures d in t && t[d].FileNode? ==> r == Err(NOTDIR)
    ensures d in t && t[d].DirNode? && name == [46] ==> r == Ok(d)
    ensures d in t && t[d].DirNode? && name == [46, 46] ==>
              if d == ROOT then r == Err(SERVERFAULT) else r.Ok? && Owns(t, r.value, d)
    ensures d in t && t[d].DirNode? && name != [46] && name != [46, 46] ==>
              if r.Ok? then r.value in t[d].kids && r.value in t && t[r.value].name == name
              else r == Err(NOENT) && forall c :: c in t[d].kids ==> c in t && t[c].name != name
  {
    if d in t && d != ROOT {
      var p :| PathFromTo(t, p, ROOT, d);
      PathShorten(t, p, ROOT, d);
      assert Owns(t, p[|p| - 2], d);
    }
    assert forall c :: d in t && t[d].DirNode? && c in t[d].kids ==> Owns(t, d, c);
  }

  // ---- Which operations keep the tree ----

  /** A new entry keeps the tree, unless it is a directory asked to be its own parent. */
  lemma PushKeepsTreeIff(t: Nodes, parent: Id, id: Id, n: Node)
    requires IsTree(t) && id != 0
    requires n.DirNode? ==> n.kids == {} && n.parent == parent
    ensures IsTree(Push(t, parent, id, n).nodes) <==> !(parent == id && id !in t && n.DirNode?)
  {
    var u := Push(t, parent, id, n).nodes;
    if parent == id && id !in t && n.DirNode? {
      assert Owns(u, id, id);
      if IsTree(u) { OwnerIsOther(u, id, id); }
    } else if u != t {
      assert u == Link(t, parent, id, n);
      LinkKeepsTree(t, parent, id, n);
    }
  }

  lemma RemoveKeepsTree(t: Nodes, d: Id, name: Name, y: Result<Id, Status>)
    requires IsTree(t) && Finds(t, d, name, y)
    ensures IsTree(Remove(t, d, name, y).nodes)
  {
    if Remove(t, d, name, y).reply.Ok? { UnlinkKeepsTree(t, d, y.value); }
  }

  /** A rename of "." or ".." that gets as far as relinking: the directory it names is not found
      where it is removed from, and ends up in two places. */
  ghost predicate DotMove(t: Nodes, fd: Id, fn: Name, x: Result<Id, Status>, td: Id, tn: Name, y: Result<Id, Status>)
    requires Finds(t, fd, fn, x) && Finds(t, td, tn, y) && IsTree(t)
  {
    && IsDots(fn) && x.Ok? && td in t && t[td].DirNode?
    && !(fd == td && fn == tn)
    && MayReplace(t, x.value, y) && !(y.Ok? && IsDots(tn))
    && !Below(t, x.value, td)
    && !Owns(t, td, x.value)
  }

  /** A rename of a file to a directory that does not exist: the file is taken out of its
      directory before the missing one is noticed. */
  ghost predicate OrphanMove(t: Nodes, x: Result<Id, Status>, td: Id) {
    x.Ok? && x.value in t && t[x.value].FileNode? && td !in t
  }

  lemma BelowMonotone(u: Nodes, t: Nodes, a: Id, k: Id)
    requires Below(u, a, k) && forall d, c :: Owns(u, d, c) ==> Owns(t, d, c)
    ensures Below(t, a, k)
  {
    var p :| PathFromTo(u, p, a, k);
    assert PathFromTo(t, p, a, k);
  }

  lemma OnlyDirectoriesHaveEntriesBelow(t: Nodes, a: Id, k: Id)
    requires Below(t, a, k) && a != k
    ensures exists c :: Owns(t, a, c)
  {
    var p :| PathFromTo(t, p, a, k);
    assert Owns(t, p[0], p[1]);
  }

  /** What is already known when a rename starts relinking. */
  ghost predicate Relinking(t: Nodes, t1: Nodes, fd: Id, fn: Name, x: Id, td: Id, tn: Name, y: Result<Id, Status>) {
    && IsTree(t) && IsTree(t1) && Finds(t, fd, fn, Ok(x)) && Finds(t, td, tn, y)
    && !(fd == td && fn == tn) && x in t && Clash(t, x, y).None? && !(y.Ok? && IsDots(tn))
    && t1 == (if y.Ok? then Unlink(t, td, y.value) else t)
    && td in t && !(t[x].DirNode? && Below(t, x, td))
  }

  lemma TargetGone(t: Nodes, t1: Nodes, fd: Id, fn: Name, x: Id, td: Id, tn: Name, y: Result<Id, Status>)
    requires Relinking(t, t1, fd, fn, x, td, tn, y)
    ensures t[td].DirNode? && td in t1 && t1[td].DirNode? && !Below(t1, x, td)
    ensures y.Ok? ==> Owns(t, td, y.value) && IsLeaf(t[y.value]) && y.value != td
    ensures forall d, c :: Owns(t1, d, c) <==> Owns(t, d, c) && !(y.Ok? && c == y.value)
  {
    if y.Ok? {
      OwnerIsOther(t, td, y.value);
      OwnsAfterUnlink(t, td, y.value);
    }
    if Below(t1, x, td) {
      BelowMonotone(t1, t, x, td);
      if x != td { OnlyDirectoriesHaveEntriesBelow(t, x, td); }
    }
  }

  lemma RelinkOrdinary(t: Nodes, t1: Nodes, fd: Id, fn: Name, x: Id, td: Id, tn: Name, y: Result<Id, Status>)
    requires Relinking(t, t1, fd, fn, x, td, tn, y) && !IsDots(fn)
    ensures Owns(t1, fd, x) && td in t1 && t1[td].DirNode? && x in t1 && !Below(t1, x, td)
    ensures x != fd && x != td && (y.Ok? ==> y.value != x && y.value != fd)
    ensures Relink(t1, fd, x, td, tn) == Outcome(Attach(Detach(t1, fd, x), x, td, tn), Ok(()))
    ensures IsTree(Relink(t1, fd, x, td, tn).nodes)
  {
    TargetGone(t, t1, fd, fn, x, td, tn, y);
    assert Owns(t, fd, x) && t[x].name == fn;
    assert Owns(t1, fd, x);
    OwnerIsOther(t, fd, x);
    BelowSelf(t1, x);
    assert x in t1[td].kids ==> Owns(t1, td, x);
    MoveKeepsTree(t1, fd, x, td, tn);
  }

  lemma DetachBreaks(t: Nodes, fd: Id, x: Id)
    requires IsTree(t) && Owns(t, fd, x)
    ensures !IsTree(Detach(t, fd, x))
  {
    var u := Detach(t, fd, x);
    assert x in u && x != ROOT;
    if IsTree(u) {
      var p :| PathFromTo(u, p, ROOT, x);
      PathShorten(u, p, ROOT, x);
      assert Owns(t, p[|p| - 2], x);
    }
  }

  /** "." and ".." name a directory that the directory they are looked up in does not contain. */
  lemma DotsAreNotInside(t: Nodes, fd: Id, fn: Name, x: Id)
    requires IsTree(t) && IsDots(fn) && Finds(t, fd, fn, Ok(x))
    ensures !Owns(t, fd, x) && x in t && t[x].DirNode? && (fn == DOTDOT ==> Owns(t, x, fd))
  {
    if fn == DOTDOT {
      assert fd != ROOT;
      var p :| PathFromTo(t, p, ROOT, fd);
      PathShorten(t, p, ROOT, fd);
      if Owns(t, fd, x) {
        assert PathFromTo(t, [fd, x, fd], fd, fd);
        NoCycle(t, [fd, x, fd], fd);
      }
    } else if Owns(t, fd, x) {
      OwnerIsOther(t, fd, x);
    }
  }

  lemma DetachesNothing(t: Nodes, t1: Nodes, fd: Id, fn: Name, x: Id, td: Id, tn: Name, y: Result<Id, Status>)
    requires Relinking(t, t1, fd, fn, x, td, tn, y) && IsDots(fn) && fd in t1
    ensures t1[fd].DirNode? && Detach(t1, fd, x) == t1
    ensures Owns(t1, td, x) <==> Owns(t, td, x)
  {
    TargetGone(t, t1, fd, fn, x, td, tn, y);
    DotsAreNotInside(t, fd, fn, x);
    if y.Ok? {
      assert fd != y.value;
      assert y.value != x by { if fn == DOTDOT { assert fd in t[x].kids; } }
    }
    assert !Owns(t1, fd, x);
    assert t1[fd].kids - {x} == t1[fd].kids;
  }

  lemma RelinkDots(t: Nodes, t1: Nodes, fd: Id, fn: Name, x: Id, td: Id, tn: Name, y: Result<Id, Status>)
    requires Relinking(t, t1, fd, fn, x, td, tn, y) && IsDots(fn)
    ensures IsTree(Relink(t1, fd, x, td, tn).nodes) <==> !DotMove(t, fd, fn, Ok(x), td, tn, y)
  {
    TargetGone(t, t1, fd, fn, x, td, tn, y);
    DotsAreNotInside(t, fd, fn, x);
    BelowSelf(t, td);
    if fd in t1 {
      DetachesNothing(t, t1, fd, fn, x, td, tn, y);
      if !Owns(t, td, x) { AttachBreaks(t1, x, td, tn); }
    }
  }

  /** Putting an entry into a directory that lacks it, without taking it out of its own. */
  lemma AttachBreaks(t: Nodes, x: Id, td: Id, name: Name)
    requires IsTree(t) && x in t && td in t && t[td].DirNode? && !Below(t, x, td) && !Owns(t, td, x)
    ensures !IsTree(Attach(t, x, td, name))
  {
    var u := Attach(t, x, td, name);
    assert x != ROOT;
    var p :| PathFromTo(t, p, ROOT, x);
    PathShorten(t, p, ROOT, x);
    var o := p[|p| - 2];
    assert Owns(t, o, x) && o != td;
    OwnerIsOther(t, o, x);
    BelowSelf(t, x);
    assert Owns(u, o, x) && Owns(u, td, x);
  }

  /** Rename keeps the tree exactly when it is neither of the two. */
  lemma RenameKeepsTreeIff(t: Nodes, fd: Id, fn: Name, x: Result<Id, Status>, td: Id, tn: Name, y: Result<Id, Status>)
    requires IsTree(t) && Finds(t, fd, fn, x) && Finds(t, td, tn, y)
    ensures IsTree(Rename(t, fd, fn, x, td, tn, y).nodes)
       <==> !DotMove(t, fd, fn, x, td, tn, y) && !OrphanMove(t, x, td)
  {
    if x.Err? || (fd == td && fn == tn) || Clash(t, x.value, y).Some? || (y.Ok? && IsDots(tn)) {
    } else {
      var t1 := if y.Ok? then Unlink(t, td, y.value) else t;
      if y.Ok? {
        assert Owns(t, td, y.value);
        UnlinkKeepsTree(t, td, y.value);
      }
      if !(t[x.value].DirNode? && (td !in t || Below(t, x.value, td))) {
        if IsDots(fn) {
          DotsAreNotInside(t, fd, fn, x.value);
          RelinkDots(t, t1, fd, fn, x.value, td, tn, y);
        } else if td !in t {
          DetachBreaks(t, fd, x.value);
        } else {
          RelinkOrdinary(t, t1, fd, fn, x.value, td, tn, y);
        }
      }
    }
  }

  /** Any other rename of "." or ".." does nothing, except that an entry in its way may be gone. */
  lemma DotsMoveNothing(t: Nodes, fd: Id, fn: Name, x: Result<Id, Status>, td: Id, tn: Name, y: Result<Id, Status>)
    requires IsTree(t) && Finds(t, fd, fn, x) && Finds(t, td, tn, y) && IsDots(fn) && td in t
    requires !DotMove(t, fd, fn, x, td, tn, y)
    ensures var r := Rename(t, fd, fn, x, td, tn, y);
      && (r.reply.Ok? ==> fd == td && fn == tn)
      && (r.nodes == t ||
          (r.reply.Err? && y.Ok? && Owns(t, td, y.value) && IsLeaf(t[y.value]) && r.nodes == Unlink(t, td, y.value)))
  {
    if x.Ok? && !(fd == td && fn == tn) && Clash(t, x.value, y).None? && !(y.Ok? && IsDots(tn)) {
      var t1 := if y.Ok? then Unlink(t, td, y.value) else t;
      DotsAreNotInside(t, fd, fn, x.value);
      if y.Ok? { UnlinkKeepsTree(t, td, y.value); }
      if !Below(t, x.value, td) {
        TargetGone(t, t1, fd, fn, x.value, td, tn, y);
        if fd in t1 { DetachesNothing(t, t1, fd, fn, x.value, td, tn, y); }
      }
    }
  }

  // ---- What a rename with ordinary names answers ----

  /** Whatever the names: which renames are refused before anything is touched, and with what. */
  ghost predicate RenameSays(t: Nodes, fd: Id, fn: Name, x: Result<Id, Status>, td: Id, tn: Name,
                             y: Result<Id, Status>, o: Outcome)
    requires (x.Ok? ==> x.value in t) && (y.Ok? ==> y.value in t)
  {
    && (x.Err? ==> o == Outcome(t, Err(x.error)))
    && (x.Ok? && fd == td && fn == tn ==> o == Outcome(t, Ok(())))
    && (x.Ok? && !(fd == td && fn == tn) ==>
          && (y.Err? && y.error != NOENT ==> o == Outcome(t, Err(y.error)))
          && (y.Ok? && t[x.value].FileNode? && t[y.value].DirNode? ==> o == Outcome(t, Err(NOTDIR)))
          && (y.Ok? && t[x.value].DirNode? && t[y.value].FileNode? ==> o == Outcome(t, Err(NOTDIR)))
          && (y.Ok? && t[x.value].DirNode? && t[y.value].DirNode? && t[y.value].kids != {} ==>
                o == Outcome(t, Err(NOTEMPTY)))
          && (MayReplace(t, x.value, y) && y.Ok? && IsDots(tn) ==> o == Outcome(t, Err(INVAL)))
          && (MayReplace(t, x.value, y) && t[x.value].DirNode? && td in t && Below(t, x.value, td) ==>
                o.reply == Err(INVAL))
          && (MayReplace(t, x.value, y) && !(y.Ok? && IsDots(tn)) && !IsDots(fn) && td in t ==>
                (o.reply.Ok? <==> !(t[x.value].DirNode? && Below(t, x.value, td)))))
  }

  lemma RenameAnswers(t: Nodes, fd: Id, fn: Name, x: Result<Id, Status>, td: Id, tn: Name, y: Result<Id, Status>)
    requires IsTree(t) && Finds(t, fd, fn, x) && Finds(t, td, tn, y)
    ensures (x.Ok? ==> x.value in t) && (y.Ok? ==> y.value in t)
    ensures RenameSays(t, fd, fn, x, td, tn, y, Rename(t, fd, fn, x, td, tn, y))
  {
    if x.Ok? && !(fd == td && fn == tn) && Clash(t, x.value, y).None? && !(y.Ok? && IsDots(tn)) && !IsDots(fn)
       && td in t && !(t[x.value].DirNode? && Below(t, x.value, td))
    {
      var t1 := if y.Ok? then Unlink(t, td, y.value) else t;
      if y.Ok? { UnlinkKeepsTree(t, td, y.value); }
      RelinkOrdinary(t, t1, fd, fn, x.value, td, tn, y);
    }
  }

  /** With ordinary names and live directories the "cannot happen" replies do not happen, a directory
      goes nowhere below itself, and a rename that fails changes something exactly when the new place is
      inside the old one and there is an entry in the way: that entry, an empty directory, is gone. */
  lemma OrdinaryRename(t: Nodes, fd: Id, fn: Name, x: Result<Id, Status>, td: Id, tn: Name, y: Result<Id, Status>)
    requires IsTree(t) && Finds(t, fd, fn, x) && Finds(t, td, tn, y)
    requires !IsDots(fn) && !IsDots(tn) && fd in t && td in t
    ensures (x.Ok? ==> x.value in t) && (y.Ok? ==> y.value in t)
    ensures var r := Rename(t, fd, fn, x, td, tn, y);
      && IsTree(r.nodes) && RenameSays(t, fd, fn, x, td, tn, y, r)
      && (r.reply == Err(NOENT) <==> x == Err(NOENT))
      && (r.reply.Err? ==> r.reply.error in {NOENT, NOTDIR, NOTEMPTY, INVAL})
      && (r.reply == Err(INVAL) <==>
            x.Ok? && !(fd == td && fn == tn) && MayReplace(t, x.value, y)
            && t[x.value].DirNode? && Below(t, x.value, td))
      && (r.reply.Err? ==> (r.nodes != t <==> r.reply == Err(INVAL) && y.Ok?))
      && (r.reply == Err(INVAL) && y.Ok? ==>
            t[y.value].DirNode? && t[y.value].kids == {} && r.nodes == Unlink(t, td, y.value))
      && (r.reply.Ok? && !(fd == td && fn == tn) ==>
            r.nodes == Attach(Detach(if y.Ok? then Unlink(t, td, y.value) else t, fd, x.value), x.value, td, tn))
  {
    RenameKeepsTreeIff(t, fd, fn, x, td, tn, y);
    RenameAnswers(t, fd, fn, x, td, tn, y);
    if x.Ok? && !(fd == td && fn == tn) && Clash(t, x.value, y).None? {
      if y.Ok? { UnlinkKeepsTree(t, td, y.value); }
      var t1 := if y.Ok? then Unlink(t, td, y.value) else t;
      if !(t[x.value].DirNode? && Below(t, x.value, td)) {
        RelinkOrdinary(t, t1, fd, fn, x.value, td, tn, y);
      }
    }
  }
}
