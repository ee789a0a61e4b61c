/**
 The directory structure of the in-memory file system, seen as a flat map from ids to nodes,
 and what it means for that map to be one rooted tree.
 */
module Tree {
  import opened Basics

  type Id = nat
  type Name = seq<Byte>

  const ROOT: Id := 1
  const DOT: Name := [46]
  const DOTDOT: Name := [46, 46]

  datatype Status =
    | NOENT | NOTDIR | ISDIR | INVAL | EXIST | NOTEMPTY | SERVERFAULT | BAD_COOKIE | TOOSMALL

  datatype Node =
    | FileNode(name: Name)
    | DirNode(name: Name, parent: Id, kids: set<Id>)

  type Nodes = map<Id, Node>

  predicate IsDots(name: Name) {
    name == DOT || name == DOTDOT
  }

  predicate Owns(t: Nodes, d: Id, c: Id) {
    d in t && t[d].DirNode? && c in t[d].kids
  }

  /** Every step of `p` goes from a directory to one of its children. */
  ghost predicate Descends(t: Nodes, p: seq<Id>) {
    |p| > 0 && forall i :: 0 < i < |p| ==> Owns(t, p[i - 1], p[i])
  }

  ghost predicate PathFromTo(t: Nodes, p: seq<Id>, a: Id, k: Id) {
    Descends(t, p) && p[0] == a && p[|p| - 1] == k
  }

  /** `k` is `a` or lies in the subtree of `a`, following directory contents downwards. */
  ghost predicate Below(t: Nodes, a: Id, k: Id) {
    exists p :: PathFromTo(t, p, a, k)
  }

  /** Contents name live entries, never the root; no entry is in two directories; a directory's
      parent pointer names the directory it is in. */
  ghost predicate Linked(t: Nodes) {
    && ROOT in t && t[ROOT].DirNode? && t[ROOT].parent == 0 && 0 !in t
    && (forall d, c :: Owns(t, d, c) ==> c in t && c != ROOT && (t[c].DirNode? ==> t[c].parent == d))
    && (forall d, d', c :: Owns(t, d, c) && Owns(t, d', c) ==> d == d')
  }

  /** One rooted tree. */
  ghost predicate IsTree(t: Nodes) {
    Linked(t) && forall k :: k in t ==> Below(t, ROOT, k)
  }

  // ---- Depth, the measure behind the tree shape ----

  ghost predicate Ranked(t: Nodes, depth: map<Id, nat>) {
    && depth.Keys == t.Keys
    && (forall d, c :: Owns(t, d, c) && c in t ==> depth[c] == depth[d] + 1)
    && (forall k :: k in t && k != ROOT ==> exists d :: Owns(t, d, k))
  }

  lemma PathExtend(t: Nodes, p: seq<Id>, a: Id, d: Id, c: Id)
    requires PathFromTo(t, p, a, d) && Owns(t, d, c)
    ensures PathFromTo(t, p + [c], a, c)
  {}

  lemma PathShorten(t: Nodes, p: seq<Id>, a: Id, c: Id)
    requires PathFromTo(t, p, a, c) && |p| > 1
    ensures PathFromTo(t, p[..|p| - 1], a, p[|p| - 2]) && Owns(t, p[|p| - 2], c)
  {}

  lemma BelowExtend(t: Nodes, a: Id, d: Id, c: Id)
    requires Below(t, a, d) && Owns(t, d, c)
    ensures Below(t, a, c)
  {
    var p :| PathFromTo(t, p, a, d);
    PathExtend(t, p, a, d, c);
  }

  lemma BelowSelf(t: Nodes, a: Id)
    ensures Below(t, a, a)
  {
    assert PathFromTo(t, [a], a, a);
  }

  /** Being in a subtree is decided one owner up. */
  lemma BelowStep(t: Nodes, a: Id, d: Id, c: Id)
    requires Linked(t) && Owns(t, d, c) && c != a
    ensures Below(t, a, c) <==> Below(t, a, d)
  {
    if Below(t, a, c) {
      var p :| PathFromTo(t, p, a, c);
      PathShorten(t, p, a, c);
    }
    if Below(t, a, d) { BelowExtend(t, a, d, c); }
  }

  /** Nothing but the root has the root below it. */
  lemma BelowRoot(t: Nodes, a: Id)
    requires Linked(t)
    ensures Below(t, a, ROOT) <==> a == ROOT
  {
    if Below(t, a, ROOT) && a != ROOT {
      var p :| PathFromTo(t, p, a, ROOT);
      PathShorten(t, p, a, ROOT);
    }
    BelowSelf(t, ROOT);
  }

  /** Paths to one entry from the root all have the same length. */
  lemma {:induction false} SameLength(t: Nodes, p: seq<Id>, q: seq<Id>, k: Id)
    requires Linked(t) && PathFromTo(t, p, ROOT, k) && PathFromTo(t, q, ROOT, k)
    ensures |p| == |q|
  {
    if |p| > 1 && |q| > 1 {
      PathShorten(t, p, ROOT, k);
      PathShorten(t, q, ROOT, k);
      SameLength(t, p[..|p| - 1], q[..|q| - 1], p[|p| - 2]);
    } else if |p| > 1 {
      PathShorten(t, p, ROOT, k);
    } else if |q| > 1 {
      PathShorten(t, q, ROOT, k);
    }
  }

  ghost function SomePath(t: Nodes, k: Id): (p: seq<Id>)
    requires IsTree(t) && k in t
    ensures PathFromTo(t, p, ROOT, k)
  {
    var p :| PathFromTo(t, p, ROOT, k);
    p
  }

  ghost function Depths(t: Nodes): (depth: map<Id, nat>)
    requires IsTree(t)
    ensures Ranked(t, depth)
  {
    var depth: map<Id, nat> := map k | k in t :: |SomePath(t, k)| - 1;
    assert Ranked(t, depth) by {
      forall d, c | Owns(t, d, c) && c in t ensures depth[c] == depth[d] + 1 {
        PathExtend(t, SomePath(t, d), ROOT, d, c);
        SameLength(t, SomePath(t, c), SomePath(t, d) + [c], c);
      }
      forall k | k in t && k != ROOT ensures exists d :: Owns(t, d, k) {
        PathShorten(t, SomePath(t, k), ROOT, k);
      }
    }
    depth
  }

  lemma {:induction false} RankedReaches(t: Nodes, depth: map<Id, nat>, k: Id)
    requires Linked(t) && Ranked(t, depth) && k in t
    ensures Below(t, ROOT, k)
    decreases depth[k]
  {
    if k == ROOT {
      BelowSelf(t, ROOT);
    } else {
      var d :| Owns(t, d, k);
      RankedReaches(t, depth, d);
      BelowExtend(t, ROOT, d, k);
    }
  }

  lemma RankedIsTree(t: Nodes, depth: map<Id, nat>)
    requires Linked(t) && Ranked(t, depth)
    ensures IsTree(t)
  {
    forall k | k in t ensures Below(t, ROOT, k) { RankedReaches(t, depth, k); }
  }

  /** A tree has no cycle: no entry lies strictly below itself. */
  lemma {:induction false} NoCycle(t: Nodes, p: seq<Id>, k: Id)
    requires IsTree(t) && PathFromTo(t, p, k, k)
    ensures p == [k]
  {
    if |p| > 1 {
      DepthAlong(t, p, |p| - 1);
    }
  }

  lemma {:induction false} DepthAlong(t: Nodes, p: seq<Id>, i: nat)
    requires IsTree(t) && Descends(t, p) && i < |p| && |p| > 1
    ensures p[0] in t && p[i] in t && Depths(t)[p[i]] == Depths(t)[p[0]] + i
  {
    if i == 0 {
      assert Owns(t, p[0], p[1]);
    } else {
      DepthAlong(t, p, i - 1);
      assert Owns(t, p[i - 1], p[i]);
    }
  }

  // ---- Edits ----

  function WithKids(n: Node, kids: set<Id>): Node
    requires n.DirNode?
  {
    n.(kids := kids)
  }

  /** A new entry in directory `d`. */
  function Link(t: Nodes, d: Id, c: Id, n: Node): Nodes
    requires d in t && t[d].DirNode?
  {
    t[c := n][d := WithKids(t[d], t[d].kids + {c})]
  }

  /** Deletes entry `c` of directory `d`. */
  function Unlink(t: Nodes, d: Id, c: Id): Nodes
    requires Owns(t, d, c)
  {
    (t - {c})[d := WithKids(t[d], t[d].kids - {c})]
  }

  function Renamed(n: Node, name: Name, parent: Id): Node {
    match n
    case FileNode(_) => FileNode(name)
    case DirNode(_, _, kids) => DirNode(name, parent, kids)
  }

  /** Takes `x` out of directory `fd`. */
  function Detach(t: Nodes, fd: Id, x: Id): Nodes
    requires fd in t && t[fd].DirNode?
  {
    t[fd := WithKids(t[fd], t[fd].kids - {x})]
  }

  /** Puts `x` into directory `td` under a new name. */
  function Attach(t: Nodes, x: Id, td: Id, name: Name): Nodes
    requires td in t && t[td].DirNode? && x in t
  {
    var t1 := t[td := WithKids(t[td], t[td].kids + {x})];
    t1[x := Renamed(t1[x], name, td)]
  }

  predicate IsLeaf(n: Node) {
    n.DirNode? ==> n.kids == {}
  }

  lemma OwnsAfterLink(t: Nodes, d: Id, c: Id, n: Node)
    requires d in t && t[d].DirNode? && c !in t && (n.DirNode? ==> n.kids == {})
    ensures forall e, k :: Owns(Link(t, d, c, n), e, k) <==> Owns(t, e, k) || (e == d && k == c)
  {}

  lemma OwnsAfterUnlink(t: Nodes, d: Id, c: Id)
    requires Linked(t) && Owns(t, d, c) && c != d && IsLeaf(t[c])
    ensures forall e, k :: Owns(Unlink(t, d, c), e, k) <==> Owns(t, e, k) && k != c
  {
    var u := Unlink(t, d, c);
    forall e, k ensures Owns(u, e, k) <==> Owns(t, e, k) && k != c {
      assert e in u && e != d ==> u[e] == t[e];
      if Owns(t, e, k) { assert e != c; }
      if Owns(u, e, k) { assert Owns(t, e, k); }
    }
  }

  lemma OwnsAfterMove(t: Nodes, fd: Id, x: Id, td: Id, name: Name)
    requires Linked(t) && Owns(t, fd, x) && td in t && t[td].DirNode? && x != fd && x != td
    ensures var u := Attach(Detach(t, fd, x), x, td, name);
            forall e, k :: Owns(u, e, k) <==> (Owns(t, e, k) && k != x) || (e == td && k == x)
  {
    var u := Attach(Detach(t, fd, x), x, td, name);
    forall e, k ensures Owns(u, e, k) <==> (Owns(t, e, k) && k != x) || (e == td && k == x) {
      assert e in u <==> e in t;
      if e in t && t[e].DirNode? {
        assert u[e].kids == (if e == fd then t[e].kids - {x} else t[e].kids) + (if e == td then {x} else {});
        assert x in t[e].kids ==> e == fd by { assert Owns(t, e, x) <==> x in t[e].kids; }
      }
    }
  }

  /** Depths grow by one along each link, so no entry is in itself. */
  lemma OwnerIsOther(t: Nodes, d: Id, c: Id)
    requires IsTree(t) && Owns(t, d, c)
    ensures d != c
  {
    var depth := Depths(t);
  }

  lemma LinkKeepsTree(t: Nodes, d: Id, c: Id, n: Node)
    requires IsTree(t) && d in t && t[d].DirNode? && c !in t && c != 0
    requires n.DirNode? ==> n.kids == {} && n.parent == d
    ensures IsTree(Link(t, d, c, n))
  {
    LinkKeepsRank(t, Depths(t), d, c, n);
  }

  lemma LinkKeepsRank(t: Nodes, depth: map<Id, nat>, d: Id, c: Id, n: Node)
    requires Linked(t) && Ranked(t, depth) && d in t && t[d].DirNode? && c !in t && c != 0
    requires n.DirNode? ==> n.kids == {} && n.parent == d
    ensures IsTree(Link(t, d, c, n))
  {
    var u := Link(t, d, c, n);
    OwnsAfterLink(t, d, c, n);
    var depth' := depth[c := depth[d] + 1];
    assert Linked(u);
    forall k | k in u && k != ROOT ensures exists e :: Owns(u, e, k) {
      if k == c {
        assert Owns(u, d, k);
      } else {
        var e :| Owns(t, e, k);
        assert Owns(u, e, k);
      }
    }
    assert Ranked(u, depth');
    RankedIsTree(u, depth');
  }

  lemma UnlinkKeepsTree(t: Nodes, d: Id, c: Id)
    requires IsTree(t) && Owns(t, d, c) && IsLeaf(t[c])
    ensures IsTree(Unlink(t, d, c))
  {
    OwnerIsOther(t, d, c);
    UnlinkKeepsRank(t, Depths(t), d, c);
  }

  lemma UnlinkKeepsRank(t: Nodes, depth: map<Id, nat>, d: Id, c: Id)
    requires Linked(t) && Ranked(t, depth) && Owns(t, d, c) && c != d && IsLeaf(t[c])
    ensures IsTree(Unlink(t, d, c))
  {
    var u := Unlink(t, d, c);
    OwnsAfterUnlink(t, d, c);
    var depth' := map k | k in u :: depth[k];
    assert Linked(u);
    forall k | k in u && k != ROOT ensures exists e :: Owns(u, e, k) {
      var e :| Owns(t, e, k);
      assert Owns(u, e, k);
    }
    assert Ranked(u, depth');
    RankedIsTree(u, depth');
  }

  /** Re-parenting keeps the tree when the destination is outside the moved subtree. */
  lemma MoveKeepsTree(t: Nodes, fd: Id, x: Id, td: Id, name: Name)
    requires IsTree(t) && Owns(t, fd, x) && td in t && t[td].DirNode? && !Below(t, x, td)
    ensures IsTree(Attach(Detach(t, fd, x), x, td, name))
  {
    OwnerIsOther(t, fd, x);
    BelowSelf(t, x);
    forall k | k in t && Below(t, x, k) ensures Depths(t)[k] >= Depths(t)[x] {
      var p :| PathFromTo(t, p, x, k);
      if |p| > 1 { DepthAlong(t, p, |p| - 1); }
    }
    MoveKeepsRank(t, Depths(t), fd, x, td, name);
  }

  lemma MoveKeepsLinks(t: Nodes, fd: Id, x: Id, td: Id, name: Name)
    requires Linked(t) && Owns(t, fd, x) && fd != x && td in t && t[td].DirNode? && x != td
    ensures Linked(Attach(Detach(t, fd, x), x, td, name))
  {
    var u := Attach(Detach(t, fd, x), x, td, name);
    OwnsAfterMove(t, fd, x, td, name);
    forall k | k in t ensures k in u && (u[k].DirNode? <==> t[k].DirNode?) {}
    forall k | k in t && t[k].DirNode? ensures u[k].parent == if k == x then td else t[k].parent {}
  }

  /** The moved subtree takes its depths along, shifted. */
  lemma MoveKeepsRank(t: Nodes, depth: map<Id, nat>, fd: Id, x: Id, td: Id, name: Name)
    requires Linked(t) && Ranked(t, depth) && Owns(t, fd, x) && fd != x && td in t && t[td].DirNode?
    requires x != td && !Below(t, x, td) && Below(t, x, x)
    requires forall k :: k in t && Below(t, x, k) ==> depth[k] >= depth[x]
    ensures IsTree(Attach(Detach(t, fd, x), x, td, name))
  {
    MoveKeepsLinks(t, fd, x, td, name);
    MoveKeepsKeys(t, fd, x, td, name);
    OwnsAfterMove(t, fd, x, td, name);
    ShiftedRank(t, Attach(Detach(t, fd, x), x, td, name), depth, x, td);
  }

  lemma MoveKeepsKeys(t: Nodes, fd: Id, x: Id, td: Id, name: Name)
    requires Linked(t) && Owns(t, fd, x) && td in t && t[td].DirNode?
    ensures Attach(Detach(t, fd, x), x, td, name).Keys == t.Keys
  {}

  lemma ShiftedRank(t: Nodes, u: Nodes, depth: map<Id, nat>, x: Id, td: Id)
    requires Linked(t) && Ranked(t, depth) && Linked(u) && u.Keys == t.Keys && x in t && td in t
    requires x != td && !Below(t, x, td) && Below(t, x, x)
    requires forall k :: k in t && Below(t, x, k) ==> depth[k] >= depth[x]
    requires forall e, k :: Owns(u, e, k) <==> (Owns(t, e, k) && k != x) || (e == td && k == x)
    ensures IsTree(u)
  {
    var depth' := map k | k in t :: if Below(t, x, k) then depth[td] + 1 + depth[k] - depth[x] else depth[k];
    forall d, c | Owns(u, d, c) && c in u ensures depth'[c] == depth'[d] + 1 {
      if c != x { BelowStep(t, x, d, c); }
    }
    forall k | k in u && k != ROOT ensures exists e :: Owns(u, e, k) {
      if k == x {
        assert Owns(u, td, k);
      } else {
        var e :| Owns(t, e, k);
        assert Owns(u, e, k);
      }
    }
    RankedIsTree(u, depth');
  }

  /** Deleting a leaf cuts off nothing else. */
  lemma BelowWithoutLeaf(t: Nodes, d: Id, y: Id, a: Id, k: Id)
    requires IsTree(t) && Owns(t, d, y) && IsLeaf(t[y]) && y != k
    ensures Below(Unlink(t, d, y), a, k) <==> Below(t, a, k)
  {
    var u := Unlink(t, d, y);
    OwnerIsOther(t, d, y);
    OwnsAfterUnlink(t, d, y);
    if p :| PathFromTo(t, p, a, k) {
      forall i | 0 < i < |p| ensures Owns(u, p[i - 1], p[i]) {
        assert Owns(t, p[i - 1], p[i]);
        assert i + 1 < |p| ==> Owns(t, p[i], p[i + 1]);
      }
      assert PathFromTo(u, p, a, k);
    }
    if p :| PathFromTo(u, p, a, k) {
      assert PathFromTo(t, p, a, k);
    }
  }
}
