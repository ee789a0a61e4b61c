/** Runs in which the counter of listings goes all the way round. */
module MirrorExamples {
  import opened Basics
  import opened Tree
  import opened IteratorCache
  import opened MirrorListing

  const A: Name := [97]
  const B: Name := [98]
  const C: Name := [99]

  /** What a directory holds at first, and what it holds when it has been listed 2^32 times. */
  const BEFORE: seq<Name> := [A, B]
  const AFTER: seq<Name> := [A, C]

  /** After `n` fresh listings by iterators numbered from 0. */
  function AfterOpens(n: nat): State {
    State(seq(n, _ => Listing(ROOT, BEFORE)), n % STEP, map[],
          map i: nat | 0 <= i < n :: Iter(ROOT, Some(ReadDir(i, BEFORE, 0)), Base(i % STEP)), [])
  }

  lemma OneMoreOpen(n: nat)
    ensures Allowed(AfterOpens(n), Open(n, ROOT, 0, BEFORE))
    ensures OpenFresh(AfterOpens(n), n, ROOT, BEFORE) == AfterOpens(n + 1)
  {
    NextCounter(n);
    assert AfterOpens(n).listings + [Listing(ROOT, BEFORE)] == AfterOpens(n + 1).listings;
    assert AfterOpens(n).live[n := Iter(ROOT, Some(ReadDir(n, BEFORE, 0)), Base(n % STEP))] == AfterOpens(n + 1).live;
  }

  lemma OpensRun(n: nat, limits: Limits) returns (states: seq<State>, ops: seq<Op>)
    ensures Run(states, ops, limits) && |ops| == n && states[n] == AfterOpens(n)
  {
    states := seq(n + 1, i requires 0 <= i => AfterOpens(i));
    ops := seq(n, i requires 0 <= i => Open(i, ROOT, 0, BEFORE));
    assert AfterOpens(0) == INITIAL;
    forall i | 0 <= i < n ensures Allowed(states[i], ops[i]) && states[i + 1] == Apply(states[i], ops[i], limits) {
      OneMoreOpen(i);
    }
  }

  lemma GoesOn(states: seq<State>, ops: seq<Op>, op: Op, limits: Limits) returns (states': seq<State>, ops': seq<Op>)
    requires Run(states, ops, limits) && Allowed(states[|ops|], op)
    ensures Run(states', ops', limits) && |ops'| == |ops| + 1 && ops' == ops + [op]
    ensures states' == states + [Apply(states[|ops|], op, limits)]
  {
    states', ops' := states + [Apply(states[|ops|], op, limits)], ops + [op];
  }

  /** The first entry of a listing and the first entry of the listing 2^32 later have one cookie. */
  lemma CookiesMeet(limits: Limits) returns (states: seq<State>, ops: seq<Op>)
    ensures Run(states, ops, limits)
    ensures TwoHeld(states[|ops|])
    ensures var issued := states[|ops|].issued;
            |issued| == 2 && issued[0].listing != issued[1].listing && issued[0].cookie == issued[1].cookie
  {
    states, ops := OpensRun(STEP, limits);
    assert states[STEP] == AfterOpens(STEP);
    states, ops := GoesOn(states, ops, Open(STEP, ROOT, 0, AFTER), limits);
    states, ops := GoesOn(states, ops, Next(0, false), limits);
    states, ops := GoesOn(states, ops, Next(STEP, false), limits);
  }

  /** Iterators 0 and 2^32 are at the second entries of their listings. */
  ghost predicate TwoHeld(s: State) {
    && 0 in s.live && s.live[0] == Iter(ROOT, Some(ReadDir(0, BEFORE, 1)), 1)
    && STEP in s.live && s.live[STEP] == Iter(ROOT, Some(ReadDir(STEP, AFTER, 1)), 1)
    && STEP + 1 !in s.live && s.cache == map[]
    && s.issued == [Issue(0, 1, ROOT, A), Issue(STEP, 1, ROOT, A)]
  }

  /** A client that comes back for what follows the first entry of listing 0 gets what follows the first entry of
      the other listing, and the stream it was to get still waits. */
  lemma WrongStreamContinues(limits: Limits) returns (states: seq<State>, ops: seq<Op>)
    requires limits.maxPerDir >= 2
    ensures Run(states, ops, limits) && |ops| >= 2
    ensures ops[|ops| - 2..] == [Open(STEP + 1, ROOT, 1, BEFORE), Next(STEP + 1, false)]
    ensures var issued := states[|ops|].issued;
            && |issued| == 3 && issued[0] == Issue(0, 1, ROOT, A) && issued[1] == Issue(STEP, 1, ROOT, A)
            && issued[2] == Issue(STEP, 2, ROOT, C)
    ensures At(states[|ops|].cache, ROOT) == [Slot(1, 1, ReadDir(0, BEFORE, 1))]
  {
    states, ops := CookiesMeet(limits);
    states, ops := GoesOn(states, ops, Drop(STEP, 0), limits);
    states, ops := GoesOn(states, ops, Drop(0, 1), limits);
    states, ops := GoesOn(states, ops, Open(STEP + 1, ROOT, 1, BEFORE), limits);
    states, ops := GoesOn(states, ops, Next(STEP + 1, false), limits);
  }
}
