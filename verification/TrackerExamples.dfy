/** A run of the tracker in which trimming lets an xid in again at the instant it finished. */
module TrackerExamples {
  import opened Basics
  import opened ClientTable
  import opened Tracker

  /** One transaction at a time, and two remembered. */
  const LIMITS: Limits := Limits(1_000_000, 1, 2)
  const CLIENT: Client := "client"

  function Done(xid: U32): Tx {
    Tx(xid, Completed(0))
  }

  /** Starting and finishing `xid` at instant 0, when its place among the finished ones is the last. */
  lemma AddsAndFinishes(txs: seq<Tx>, xid: U32)
    requires Sorted(txs) && |txs| <= 2 && forall i :: 0 <= i < |txs| ==> txs[i] == Done(txs[i].xid) && txs[i].xid < xid
    ensures var kept := (if |txs| == 2 then txs[1..] else txs);
            && Add(Table(txs, 0, 0), xid, 0, LIMITS) == (Table(kept + [Tx(xid, InProgress)], 0, 1), Ok(()))
            && Finish(Table(kept + [Tx(xid, InProgress)], 0, 1), xid, 0, LIMITS) == Table(kept + [Done(xid)], 0, 0)
  {
    var kept := if |txs| == 2 then txs[1..] else txs;
    FindAt(txs, xid, |txs|);
    var all := txs + [Tx(xid, InProgress)];
    assert Inserted(txs, |txs|, Tx(xid, InProgress)) == all;
    assert |txs| == 2 ==> all[1..] == kept + [Tx(xid, InProgress)];
    assert Trimmed(kept + [Tx(xid, InProgress)], 2) == kept + [Tx(xid, InProgress)];
    FindAt(kept + [Tx(xid, InProgress)], xid, |kept|);
    assert (kept + [Tx(xid, InProgress)])[|kept| := Done(xid)] == kept + [Done(xid)];
  }

  /** The client is known, with these entries and no lock. */
  ghost predicate Idle(s: State, txs: seq<Tx>) {
    && s.clock == 0 && s.pending == map[] && s.clients.Keys == {CLIENT}
    && s.Of(CLIENT).locks == map[] && s.Of(CLIENT).slot.Some? && s.Of(CLIENT).slot.value.table == Table(txs, 0, 0)
  }

  lemma StartAndDrop(s: State, txs: seq<Tx>, xid: U32) returns (s1: State, s2: State)
    requires Idle(s, txs)
    requires Sorted(txs) && |txs| <= 2 && forall i :: 0 <= i < |txs| ==> txs[i] == Done(txs[i].xid) && txs[i].xid < xid
    ensures Next(s, StartRead(CLIENT, xid, 0, 0, 0), s1, LIMITS)
    ensures Accepts(s, StartRead(CLIENT, xid, 0, 0, 0), CLIENT, xid, LIMITS)
    ensures Next(s1, DropLock(CLIENT, 0, 0), s2, LIMITS)
    ensures Idle(s2, (if |txs| == 2 then txs[1..] else txs) + [Done(xid)])
  {
    AddsAndFinishes(txs, xid);
    var c := Start(s.Of(CLIENT), xid, 0, 0, LIMITS);
    s1 := With(s, CLIENT, c);
    s2 := With(s1, CLIENT, Drop(c, 0, 0, LIMITS));
    assert Drop(c, 0, 0, LIMITS).locks == map[];
  }

  /** The first transaction of a client: the start misses it under the read lock. */
  lemma FirstTransaction() returns (s1: State, s2: State, s3: State)
    ensures Next(INITIAL, StartRead(CLIENT, 1, 0, 0, 0), s1, LIMITS)
    ensures Next(s1, StartWrite(0, 0), s2, LIMITS) && Accepts(s1, StartWrite(0, 0), CLIENT, 1, LIMITS)
    ensures Next(s2, DropLock(CLIENT, 0, 0), s3, LIMITS) && Idle(s3, [Done(1)])
  {
    AddsAndFinishes([], 1);
    assert [] + [Tx(1, InProgress)] == [Tx(1, InProgress)] && [] + [Done(1)] == [Done(1)];
    s1 := INITIAL.(pending := map[0 := Pending(CLIENT, 1, 0)]);
    assert INITIAL.pending[0 := Pending(CLIENT, 1, 0)] == s1.pending;
    var c := Start(Enter(s1.Of(CLIENT), 0, 0), 1, 0, 0, LIMITS);
    s2 := With(s1, CLIENT, c).(pending := map[], nextRef := 1);
    assert s1.pending - {0} == map[];
    s3 := With(s2, CLIENT, Drop(c, 0, 0, LIMITS));
    assert Drop(c, 0, 0, LIMITS).locks == map[];
  }

  lemma GoesOn(states: seq<State>, steps: seq<Step>, step: Step, s: State)
    requires Run(states, steps, LIMITS) && Next(states[|steps|], step, s, LIMITS)
    ensures Run(states + [s], steps + [step], LIMITS)
  {}

  /** A start and a drop at the end of a run. */
  lemma Continued(states: seq<State>, steps: seq<Step>, txs: seq<Tx>, xid: U32)
    returns (states': seq<State>, steps': seq<Step>)
    requires Run(states, steps, LIMITS) && Idle(states[|steps|], txs)
    requires Sorted(txs) && |txs| <= 2 && forall i :: 0 <= i < |txs| ==> txs[i] == Done(txs[i].xid) && txs[i].xid < xid
    ensures Run(states', steps', LIMITS) && |steps'| == |steps| + 2 && states <= states' && steps <= steps'
    ensures Idle(states'[|steps'|], (if |txs| == 2 then txs[1..] else txs) + [Done(xid)])
  {
    var start, drop := StartRead(CLIENT, xid, 0, 0, 0), DropLock(CLIENT, 0, 0);
    var s1, s2 := StartAndDrop(states[|steps|], txs, xid);
    GoesOn(states, steps, start, s1);
    GoesOn(states + [s1], steps + [start], drop, s2);
    states', steps' := states + [s1] + [s2], steps + [start] + [drop];
  }

  lemma FirstRun() returns (states: seq<State>, steps: seq<Step>)
    ensures Run(states, steps, LIMITS) && |steps| == 3 && Idle(states[3], [Done(1)])
    ensures Accepts(states[1], steps[1], CLIENT, 1, LIMITS)
  {
    var s1, s2, s3 := FirstTransaction();
    var read, write, drop := StartRead(CLIENT, 1, 0, 0, 0), StartWrite(0, 0), DropLock(CLIENT, 0, 0);
    GoesOn([INITIAL], [], read, s1);
    GoesOn([INITIAL] + [s1], [] + [read], write, s2);
    GoesOn([INITIAL] + [s1] + [s2], [] + [read] + [write], drop, s3);
    states, steps := [INITIAL] + [s1] + [s2] + [s3], [] + [read] + [write] + [drop];
  }

  /** Three transactions one after the other, and the first xid again, all at one instant: the third made the
      table forget the first, and its xid is accepted twice. */
  lemma TrimForgetsRecent() returns (states: seq<State>, steps: seq<Step>)
    ensures Run(states, steps, LIMITS) && |steps| == 8 && states[8].clock == 0
    ensures Accepts(states[1], steps[1], CLIENT, 1, LIMITS) && Accepts(states[7], steps[7], CLIENT, 1, LIMITS)
  {
    states, steps := FirstRun();
    states, steps := Continued(states, steps, [Done(1)], 2);
    assert [Done(1)] + [Done(2)] == [Done(1), Done(2)];
    states, steps := Continued(states, steps, [Done(1), Done(2)], 3);
    assert [Done(1), Done(2)][1..] + [Done(3)] == [Done(2), Done(3)];
    LastStart(states[7]);
    var step := StartRead(CLIENT, 1, 0, 0, 0);
    var s := With(states[7], CLIENT, Start(states[7].Of(CLIENT), 1, 0, 0, LIMITS));
    GoesOn(states, steps, step, s);
    states, steps := states + [s], steps + [step];
  }

  lemma LastStart(s: State)
    requires Idle(s, [Done(2), Done(3)])
    ensures Accepts(s, StartRead(CLIENT, 1, 0, 0, 0), CLIENT, 1, LIMITS)
    ensures Next(s, StartRead(CLIENT, 1, 0, 0, 0), With(s, CLIENT, Start(s.Of(CLIENT), 1, 0, 0, LIMITS)), LIMITS)
  {
    FindAt([Done(2), Done(3)], 1, 0);
  }
}
