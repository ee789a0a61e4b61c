/** Path names: a successful rename moves a subtree and disturbs no other path. */
module TreePaths {
  import opened Basics
  import opened Tree
  import opened TreeOps

  type Path = seq<Name>

  predicate OrdinaryPath(p: Path) {
    forall i :: 0 <= i < |p| ==> !IsDots(p[i])
  }

  /** No directory has two entries of one name. `mkdir` alone can break this: it does not look. */
  ghost predicate UniqueNames(t: Nodes) {
    forall d, c, c' :: Owns(t, d, c) && Owns(t, d, c') && c in t && c' in t && t[c].name == t[c'].name ==> c == c'
  }

  ghost predicate Named(t: Nodes, d: Id, name: Name, c: Id) {
    Owns(t, d, c) && c in t && t[c].name == name
  }

  /** The lookup of one ordinary component. */
  ghost function Child(t: Nodes, d: Id, name: Name): Result<Id, Status> {
    if d !in t then Err(NOENT)
    else if t[d].FileNode? then Err(NOTDIR)
    else if exists c :: Named(t, d, name, c) then
      var c :| Named(t, d, name, c);
      Ok(c)
    else Err(NOENT)
  }

  ghost function Resolve(t: Nodes, d: Id, p: Path): Result<Id, Status>
    decreases |p|
  {
    if p == [] then Ok(d)
    else match Child(t, d, p[0])
      case Err(e) => Err(e)
      case Ok(c) => Resolve(t, c, p[1..])
  }

  lemma FindsIsChild(t: Nodes, d: Id, name: Name, r: Result<Id, Status>)
    requires UniqueNames(t) && !IsDots(name) && Finds(t, d, name, r)
    ensures r == Child(t, d, name)
  {
    if d in t && t[d].DirNode? && r.Ok? { assert Named(t, d, name, r.value); }
  }

  lemma ChildIs(t: Nodes, d: Id, name: Name, c: Id)
    requires UniqueNames(t) && Named(t, d, name, c)
    ensures Child(t, d, name) == Ok(c)
  {}

  lemma {:induction false} ResolveAppend(t: Nodes, d: Id, p: Path, q: Path)
    ensures Resolve(t, d, p + q) ==
            if Resolve(t, d, p).Err? then Resolve(t, d, p) else Resolve(t, Resolve(t, d, p).value, q)
    decreases |p|
  {
    if p == [] {
      assert p + q == q;
    } else {
      assert (p + q)[1..] == p[1..] + q;
      if Child(t, d, p[0]).Ok? { ResolveAppend(t, Child(t, d, p[0]).value, p[1..], q); }
    }
  }

  lemma {:induction false} ResolveGoesDown(t: Nodes, a: Id, d: Id, p: Path)
    requires Resolve(t, d, p).Ok? && Below(t, a, d)
    ensures Below(t, a, Resolve(t, d, p).value)
    decreases |p|
  {
    if p != [] {
      var c := Child(t, d, p[0]).value;
      BelowExtend(t, a, d, c);
      ResolveGoesDown(t, a, c, p[1..]);
    }
  }

  /** An entry of a tree with unique names has one path. */
  lemma {:induction false} OnePath(t: Nodes, p: Path, q: Path, k: Id)
    requires IsTree(t) && Resolve(t, ROOT, p) == Ok(k) && Resolve(t, ROOT, q) == Ok(k)
    ensures p == q
    decreases |p|
  {
    if p != [] {
      var d := LastStep(t, p, k);
      if q != [] {
        var e := LastStep(t, q, k);
        OnePath(t, p[..|p| - 1], q[..|q| - 1], d);
        assert p == p[..|p| - 1] + [p[|p| - 1]] && q == q[..|q| - 1] + [q[|q| - 1]];
      }
    } else if q != [] {
      var e := LastStep(t, q, k);
    }
  }

  lemma LastStep(t: Nodes, p: Path, k: Id) returns (d: Id)
    requires p != [] && Resolve(t, ROOT, p) == Ok(k)
    ensures Resolve(t, ROOT, p[..|p| - 1]) == Ok(d) && Named(t, d, p[|p| - 1], k)
  {
    var init, last := p[..|p| - 1], p[|p| - 1];
    assert p == init + [last];
    ResolveAppend(t, ROOT, init, [last]);
    d := Resolve(t, ROOT, init).value;
    assert Resolve(t, d, [last]) == Ok(k);
    assert Child(t, d, last).Ok? && Resolve(t, Child(t, d, last).value, [last][1..]) == Ok(k);
  }

  // ---- A move and the paths around it ----

  /** `u` is `t` after a rename that succeeded: `x`, found as `a` in `fd`, has become `b` in `td`,
      in place of `y` if there was one. */
  datatype Move = Move(t: Nodes, u: Nodes, fd: Id, a: Name, x: Id, td: Id, b: Name, y: Result<Id, Status>) {
    ghost predicate Valid() {
      && IsTree(t) && UniqueNames(t) && !IsDots(a) && !IsDots(b) && !(fd == td && a == b)
      && Named(t, fd, a, x) && Finds(t, td, b, y) && x != fd && x != td && !Below(t, x, td)
      && td in t && t[td].DirNode?
      && (y.Ok? ==> Named(t, td, b, y.value) && IsLeaf(t[y.value]) && y.value != x && y.value != fd && y.value != td)
      && u == Attach(Detach(if y.Ok? then Unlink(t, td, y.value) else t, fd, x), x, td, b)
    }

    /** Every lookup answers as before, but the new name leads to `x` and the old one to nothing.
        Nothing is said of a directory that was replaced. */
    ghost predicate Rewired() {
      forall d, n :: y != Ok(d) ==>
        Child(u, d, n) ==
          if d == td && n == b then Ok(x) else if d == fd && n == a then Err(NOENT) else Child(t, d, n)
    }

    /** What the walks along a path need to know of the entries before the move. */
    ghost predicate Placed() {
      && IsTree(t) && UniqueNames(t) && Named(t, fd, a, x) && !Below(t, x, td) && td in t && t[td].DirNode?
      && (y.Ok? ==> Named(t, td, b, y.value) && y.value != x && IsLeaf(t[y.value]))
    }
  }

  lemma RenameIsMove(t: Nodes, fd: Id, a: Name, x: Id, td: Id, b: Name, y: Result<Id, Status>)
    requires IsTree(t) && UniqueNames(t) && !IsDots(a) && !IsDots(b) && !(fd == td && a == b)
    requires Finds(t, fd, a, Ok(x)) && Finds(t, td, b, y)
    requires Rename(t, fd, a, Ok(x), td, b, y).reply.Ok?
    ensures Move(t, Rename(t, fd, a, Ok(x), td, b, y).nodes, fd, a, x, td, b, y).Valid()
  {
    var t1 := if y.Ok? then Unlink(t, td, y.value) else t;
    if y.Ok? { UnlinkKeepsTree(t, td, y.value); }
    TargetGone(t, t1, fd, a, x, td, b, y);
    RelinkOrdinary(t, t1, fd, a, x, td, b, y);
    if Below(t, x, td) { OnlyDirectoriesHaveEntriesBelow(t, x, td); }
  }

  lemma OwnsAfterRename(m: Move)
    requires m.Valid()
    ensures forall d, c :: Owns(m.u, d, c) <==> (Owns(m.t, d, c) && c != m.x && m.y != Ok(c)) || (d == m.td && c == m.x)
  {
    var t1 := if m.y.Ok? then Unlink(m.t, m.td, m.y.value) else m.t;
    if m.y.Ok? {
      UnlinkKeepsTree(m.t, m.td, m.y.value);
      OwnsAfterUnlink(m.t, m.td, m.y.value);
    }
    assert Owns(t1, m.fd, m.x);
    OwnsAfterMove(t1, m.fd, m.x, m.td, m.b);
  }

  lemma NodesAfterRename(m: Move)
    requires m.Valid()
    ensures m.u.Keys == m.t.Keys - (if m.y.Ok? then {m.y.value} else {})
    ensures forall k :: k in m.u ==>
      (m.u[k].DirNode? <==> m.t[k].DirNode?) && m.u[k].name == if k == m.x then m.b else m.t[k].name
  {
    var t1 := if m.y.Ok? then Unlink(m.t, m.td, m.y.value) else m.t;
    NodesAfterMove(t1, m.fd, m.x, m.td, m.b);
  }

  lemma NodesAfterMove(t: Nodes, fd: Id, x: Id, td: Id, b: Name)
    requires x in t && fd in t && t[fd].DirNode? && td in t && t[td].DirNode?
    ensures var u := Attach(Detach(t, fd, x), x, td, b);
            && u.Keys == t.Keys
            && forall k :: k in u ==> (u[k].DirNode? <==> t[k].DirNode?) && u[k].name == if k == x then b else t[k].name
  {}

  lemma NamesStayUnique(m: Move)
    requires m.Valid()
    ensures UniqueNames(m.u)
  {
    OwnsAfterRename(m);
    NodesAfterRename(m);
    forall c | Owns(m.t, m.td, c) && c in m.t && m.t[c].name == m.b ensures m.y == Ok(c) {
      assert Named(m.t, m.td, m.b, c);
    }
  }

  lemma MoveRewires(m: Move)
    requires m.Valid()
    ensures m.Rewired() && m.Placed()
  {
    OwnsAfterRename(m);
    NodesAfterRename(m);
    NamesStayUnique(m);
    forall d, n | m.y != Ok(d)
      ensures Child(m.u, d, n) ==
        if d == m.td && n == m.b then Ok(m.x) else if d == m.fd && n == m.a then Err(NOENT) else Child(m.t, d, n)
    {
      if d == m.td && n == m.b {
        ChildIs(m.u, d, n, m.x);
      } else if d in m.t && m.t[d].DirNode? {
        OtherNames(m, d, n);
      }
    }
  }

  lemma OtherNames(m: Move, d: Id, n: Name)
    requires m.Valid() && UniqueNames(m.u) && m.y != Ok(d) && !(d == m.td && n == m.b)
    requires d in m.t && m.t[d].DirNode?
    ensures Child(m.u, d, n) == if d == m.fd && n == m.a then Err(NOENT) else Child(m.t, d, n)
  {
    OwnsAfterRename(m);
    NodesAfterRename(m);
    assert m.y.Ok? ==> Owns(m.t, m.td, m.y.value) && m.t[m.y.value].name == m.b;
    assert forall c: Id :: Named(m.u, d, n, c) <==> Named(m.t, d, n, c) && c != m.x;
    if exists c: Id :: Named(m.t, d, n, c) && c != m.x {
      var c: Id :| Named(m.t, d, n, c) && c != m.x;
      ChildIs(m.t, d, n, c);
      ChildIs(m.u, d, n, c);
    }
  }

  /** Inside the moved subtree nothing changed. */
  lemma {:induction false} ResolveInside(m: Move, c: Id, p: Path)
    requires m.Rewired() && m.Placed() && Below(m.t, m.x, c) && c in m.t
    ensures Resolve(m.u, c, p) == Resolve(m.t, c, p)
    decreases |p|
  {
    if p != [] {
      NotInside(m, c);
      if Child(m.t, c, p[0]).Ok? {
        var next := Child(m.t, c, p[0]).value;
        BelowExtend(m.t, m.x, c, next);
        ResolveInside(m, next, p[1..]);
      }
    }
  }

  lemma NotInside(m: Move, c: Id)
    requires m.Placed() && Below(m.t, m.x, c)
    ensures c != m.td && c != m.fd && m.y != Ok(c)
  {
    if m.y == Ok(c) { BelowStep(m.t, m.x, m.td, c); }
    if c == m.fd {
      var p :| PathFromTo(m.t, p, m.x, m.fd);
      PathExtend(m.t, p, m.x, m.fd, m.x);
      NoCycle(m.t, p + [m.x], m.x);
    }
  }

  /** Walking along a path `p` that meets neither the old place s/a nor the new place z/b; the
      first `i` components have led to `c`. */
  lemma {:induction false} ResolveElsewhere(m: Move, s: Path, z: Path, p: Path, i: nat, c: Id)
    requires m.Rewired() && m.Placed()
    requires Resolve(m.t, ROOT, s) == Ok(m.fd) && Resolve(m.t, ROOT, z) == Ok(m.td)
    requires i <= |p| && Resolve(m.t, ROOT, p[..i]) == Ok(c)
    requires !(s + [m.a] <= p) && !(z + [m.b] <= p)
    ensures Resolve(m.u, c, p[i..]) == Resolve(m.t, c, p[i..])
    decreases |p| - i
  {
    if i < |p| {
      NotThere(m, s, z, p, i, c);
      assert Child(m.u, c, p[i]) == Child(m.t, c, p[i]);
      assert p[i..][1..] == p[i + 1..] && p[..i + 1] == p[..i] + [p[i]];
      if Child(m.t, c, p[i]).Ok? {
        var next := Child(m.t, c, p[i]).value;
        ResolveChild(m.t, p[..i], c, p[i], next);
        ResolveElsewhere(m, s, z, p, i + 1, next);
      }
    }
  }

  lemma NotThere(m: Move, s: Path, z: Path, p: Path, i: nat, c: Id)
    requires m.Placed()
    requires Resolve(m.t, ROOT, s) == Ok(m.fd) && Resolve(m.t, ROOT, z) == Ok(m.td)
    requires i < |p| && Resolve(m.t, ROOT, p[..i]) == Ok(c)
    requires !(s + [m.a] <= p) && !(z + [m.b] <= p)
    ensures m.y != Ok(c) && !(c == m.td && p[i] == m.b) && !(c == m.fd && p[i] == m.a)
  {
    assert p[..i + 1] == p[..i] + [p[i]];
    if c == m.td && p[i] == m.b { OnePath(m.t, p[..i], z, c); }
    if c == m.fd && p[i] == m.a { OnePath(m.t, p[..i], s, c); }
    if m.y == Ok(c) {
      ResolveChild(m.t, z, m.td, m.b, c);
      OnePath(m.t, p[..i], z + [m.b], c);
    }
  }

  lemma ResolveChild(t: Nodes, q: Path, d: Id, n: Name, c: Id)
    requires UniqueNames(t) && Resolve(t, ROOT, q) == Ok(d) && Named(t, d, n, c)
    ensures Resolve(t, ROOT, q + [n]) == Ok(c)
  {
    ChildIs(t, d, n, c);
    ResolveAppend(t, ROOT, q, [n]);
    assert [n][1..] == [];
  }

  /** The new place is not inside the old one. */
  lemma NotIntoItself(m: Move, s: Path, z: Path)
    requires m.Placed() && Resolve(m.t, ROOT, s) == Ok(m.fd) && Resolve(m.t, ROOT, z) == Ok(m.td)
    ensures !(s + [m.a] <= z)
  {
    if s + [m.a] <= z {
      ResolveChild(m.t, s, m.fd, m.a, m.x);
      var rest := z[|s| + 1..];
      assert z == s + [m.a] + rest;
      ResolveAppend(m.t, ROOT, s + [m.a], rest);
      BelowSelf(m.t, m.x);
      ResolveGoesDown(m.t, m.x, m.x, rest);
    }
  }

  /** The old place is not inside what the move replaces, since that is empty. */
  lemma NotOutOfTarget(m: Move, s: Path, z: Path)
    requires m.Valid() && Resolve(m.t, ROOT, s) == Ok(m.fd) && Resolve(m.t, ROOT, z) == Ok(m.td)
    ensures !(z + [m.b] <= s)
  {
    if z + [m.b] <= s {
      var rest := s[|z| + 1..];
      assert s == z + [m.b] + rest;
      FollowTwo(m.t, z, m.td, m.b, rest);
      FindsIsChild(m.t, m.td, m.b, m.y);
      BelowSelf(m.t, m.y.value);
      ResolveGoesDown(m.t, m.y.value, m.y.value, rest);
      OnlyDirectoriesHaveEntriesBelow(m.t, m.y.value, m.fd);
    }
  }

  /** The two directories of a move keep their paths. */
  lemma EndsStay(m: Move, s: Path, z: Path)
    requires m.Valid() && Resolve(m.t, ROOT, s) == Ok(m.fd) && Resolve(m.t, ROOT, z) == Ok(m.td)
    ensures Resolve(m.u, ROOT, s) == Ok(m.fd) && Resolve(m.u, ROOT, z) == Ok(m.td)
  {
    MoveRewires(m);
    NotIntoItself(m, s, z);
    NotOutOfTarget(m, s, z);
    assert s[0..] == s && z[0..] == z && s[..0] == z[..0] == [];
    ResolveElsewhere(m, s, z, s, 0, ROOT);
    ResolveElsewhere(m, s, z, z, 0, ROOT);
  }

  /** A successful rename of s/a to z/b, seen on paths. */
  lemma RenameMovesSubtree(t: Nodes, s: Path, a: Name, fd: Id, x: Id, z: Path, b: Name, td: Id, y: Result<Id, Status>,
                           rest: Path)
    requires IsTree(t) && UniqueNames(t) && !IsDots(a) && !IsDots(b) && s + [a] != z + [b]
    requires Resolve(t, ROOT, s) == Ok(fd) && Resolve(t, ROOT, z) == Ok(td)
    requires Finds(t, fd, a, Ok(x)) && Finds(t, td, b, y)
    requires Rename(t, fd, a, Ok(x), td, b, y).reply.Ok?
    ensures var u := Rename(t, fd, a, Ok(x), td, b, y).nodes;
      && UniqueNames(u)
      // everything under s/a is now under z/b
      && Resolve(u, ROOT, z + [b] + rest) == Resolve(t, ROOT, s + [a] + rest)
      // nothing is under s/a any more
      && Resolve(u, ROOT, s + [a] + rest) == Err(NOENT)
      // every other path leads where it led
      && (!(s + [a] <= rest) && !(z + [b] <= rest) ==> Resolve(u, ROOT, rest) == Resolve(t, ROOT, rest))
  {
    var u := Rename(t, fd, a, Ok(x), td, b, y).nodes;
    if fd == td && a == b { OnePath(t, s, z, fd); }
    var m := Move(t, u, fd, a, x, td, b, y);
    RenameIsMove(t, fd, a, x, td, b, y);
    MoveRewires(m);
    NamesStayUnique(m);
    EndsStay(m, s, z);
    FollowTwo(u, z, td, b, rest);
    FollowTwo(u, s, fd, a, rest);
    ChildIs(t, fd, a, x);
    FollowTwo(t, s, fd, a, rest);
    BelowSelf(t, x);
    ResolveInside(m, x, rest);
    if !(s + [a] <= rest) && !(z + [b] <= rest) {
      assert rest[0..] == rest && rest[..0] == [];
      ResolveElsewhere(m, s, z, rest, 0, ROOT);
    }
  }

  lemma FollowTwo(t: Nodes, q: Path, d: Id, n: Name, rest: Path)
    requires Resolve(t, ROOT, q) == Ok(d)
    ensures Resolve(t, ROOT, q + [n] + rest) ==
            if Child(t, d, n).Err? then Err(Child(t, d, n).error) else Resolve(t, Child(t, d, n).value, rest)
  {
    assert q + [n] + rest == q + ([n] + rest);
    ResolveAppend(t, ROOT, q, [n] + rest);
    assert ([n] + rest)[1..] == rest;
  }

  // ---- Names under the other operations ----

  /** `create` looks the name up before it adds a file, so names stay unique. */
  lemma CreateKeepsUniqueNames(t: Nodes, d: Id, name: Name, y: Result<Id, Status>, id: Id, n: Node)
    requires IsTree(t) && UniqueNames(t) && Finds(t, d, name, y) && y == Err(NOENT) && n == FileNode(name)
    ensures UniqueNames(Push(t, d, id, n).nodes)
  {
    PushKeepsUniqueNamesIff(t, d, id, n);
  }

  /** A new entry keeps names unique exactly when the directory had none of its name. */
  lemma PushKeepsUniqueNamesIff(t: Nodes, d: Id, id: Id, n: Node)
    requires IsTree(t) && UniqueNames(t) && (n.DirNode? ==> n.kids == {} && d != id)
    ensures UniqueNames(Push(t, d, id, n).nodes)
       <==> !(Push(t, d, id, n).reply.Ok? && exists c :: Named(t, d, n.name, c))
  {
    var u := Push(t, d, id, n).nodes;
    if Push(t, d, id, n).reply.Ok? {
      assert forall e: Id, k: Id :: Owns(u, e, k) <==> Owns(t, e, k) || (e == d && k == id);
      assert forall k :: k in t ==> u[k].name == t[k].name;
      if exists c: Id :: Named(t, d, n.name, c) {
        var c: Id :| Named(t, d, n.name, c);
        assert Owns(u, d, c) && Owns(u, d, id) && u[c].name == u[id].name && c != id;
      } else {
        assert forall k: Id :: Owns(t, d, k) && k in t ==> t[k].name != n.name by {
          assert forall k: Id :: Named(t, d, n.name, k) <==> Owns(t, d, k) && k in t && t[k].name == n.name;
        }
      }
    }
  }

  lemma UnlinkKeepsUniqueNames(t: Nodes, d: Id, c: Id)
    requires IsTree(t) && UniqueNames(t) && Owns(t, d, c) && IsLeaf(t[c])
    ensures UniqueNames(Unlink(t, d, c))
  {
    OwnerIsOther(t, d, c);
    OwnsAfterUnlink(t, d, c);
  }

  lemma RemoveKeepsUniqueNames(t: Nodes, d: Id, name: Name, y: Result<Id, Status>)
    requires IsTree(t) && UniqueNames(t) && Finds(t, d, name, y)
    ensures UniqueNames(Remove(t, d, name, y).nodes)
  {
    if Remove(t, d, name, y).reply.Ok? { UnlinkKeepsUniqueNames(t, d, y.value); }
  }

  /** So does every rename that does not relink "." or "..", whatever it answers. */
  lemma RenameKeepsUniqueNames(t: Nodes, fd: Id, a: Name, x: Result<Id, Status>, td: Id, b: Name, y: Result<Id, Status>)
    requires IsTree(t) && UniqueNames(t) && td in t
    requires Finds(t, fd, a, x) && Finds(t, td, b, y) && !DotMove(t, fd, a, x, td, b, y)
    ensures UniqueNames(Rename(t, fd, a, x, td, b, y).nodes)
  {
    var r := Rename(t, fd, a, x, td, b, y);
    if IsDots(a) {
      DotsMoveNothing(t, fd, a, x, td, b, y);
      if r.nodes != t { UnlinkKeepsUniqueNames(t, td, y.value); }
    } else if r.reply.Ok? && !(fd == td && a == b) {
      RenameIsMove(t, fd, a, x.value, td, b, y);
      NamesStayUnique(Move(t, r.nodes, fd, a, x.value, td, b, y));
    } else if r.reply.Err? && fd in t && !IsDots(b) {
      OrdinaryRename(t, fd, a, x, td, b, y);
      if r.nodes != t { UnlinkKeepsUniqueNames(t, td, y.value); }
    }
  }
}
