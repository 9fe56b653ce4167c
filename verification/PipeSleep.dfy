/** Pipes (pipe.c) as clients of sleep and wakeup: one spinlock and two channels,
    with no step larger than one lock operation or one byte. What module Pipe says
    of whole stretches under the lock holds of their every interleaving. */
module PipeSleep {
  import opened Common
  import opened Sleep
  import Pipe

  /** p->lock. */
  const LK: nat := 1
  /** The channels &p->nread, on which readers sleep, and &p->nwrite. */
  const READERS: nat := 0
  const WRITERS: nat := 1

  /** What p->lock protects: every byte stored and every byte taken so far, and
      which ends are open. */
  datatype Ring = Ring(written: seq<Byte>, consumed: seq<Byte>, readopen: bool, writeopen: bool)

  const NEWRING: Ring := Ring([], [], true, true)

  predicate Empty(x: Ring) {
    |x.written| == |x.consumed|
  }

  predicate Full(x: Ring) {
    |x.written| == |x.consumed| + Pipe.PIPESIZE
  }

  /** A reader sleeps while the pipe is empty and can be written to, a writer while it
      is full and can be read from. */
  predicate Waits(c: nat, x: Ring) {
    if c == READERS then Empty(x) && x.writeopen else Full(x) && x.readopen
  }

  function ThePipe(n: nat): World<Ring> {
    World(n, 2, [LK, LK], (c, x) => Waits(c, x))
  }

  /** The stores of pipe.c: a byte into a pipe that is not full, the next byte out of
      one that is not empty, and closing an end. */
  predicate Stores(x: Ring, y: Ring) {
    !Full(x) && |y.written| == |x.written| + 1 && y == x.(written := x.written + [y.written[|x.written|]])
  }

  predicate Takes(x: Ring, y: Ring) {
    |x.consumed| < |x.written| && y == x.(consumed := x.consumed + [x.written[|x.consumed|]])
  }

  predicate Closes(x: Ring, y: Ring) {
    y == x.(readopen := false) || y == x.(writeopen := false)
  }

  ghost predicate Client(s: State<Ring>, step: Step<Ring>) {
    step.Modify? && step.l == LK && |s.data| == 2 ==>
      Stores(s.data[LK], step.x) || Takes(s.data[LK], step.x) || Closes(s.data[LK], step.x)
  }

  ghost predicate IsClientRun(n: nat, ss: seq<State<Ring>>, steps: seq<Step<Ring>>) {
    && IsRun(ThePipe(n), ss, steps) && ss[0].data[LK] == NEWRING
    && forall k :: 0 <= k < |steps| ==> Client(ss[k], steps[k])
  }

  /** The pipe as module Pipe sees it. */
  ghost function View(s: State<Ring>): Pipe.Flow
    requires |s.data| == 2
  {
    var x := s.data[LK];
    Pipe.Flow(x.written, x.consumed, Sleepers(s, READERS), Sleepers(s, WRITERS), x.readopen, x.writeopen)
  }

  ghost function Sleepers(s: State<Ring>, c: nat): set<nat> {
    set i: nat | i < |s.pcs| && s.pcs[i] == Asleep(c)
  }

  ghost predicate RingOk(x: Ring) {
    x.consumed <= x.written && |x.written| <= |x.consumed| + Pipe.PIPESIZE
  }

  lemma DataAfter(n: nat, s: State<Ring>, step: Step<Ring>)
    requires Enabled(ThePipe(n), s, step)
    ensures |s.data| == 2
    ensures Do(ThePipe(n), s, step).data == if step.Modify? && step.l < 2 then s.data[step.l := step.x] else s.data
  {
  }

  /** At every instant of every run, in the middle of reads and writes too, the bytes
      taken are the first of the bytes stored, and at most PIPESIZE are under way. */
  lemma {:induction false} AlwaysInOrder(n: nat, ss: seq<State<Ring>>, steps: seq<Step<Ring>>, k: nat)
    requires IsClientRun(n, ss, steps) && k <= |steps|
    ensures |ss[k].data| == 2 && RingOk(ss[k].data[LK])
  {
    hide Enabled, Do, ThePipe;
    if k == 0 {
      TwoLocks(n, ss[0]);
    } else {
      AlwaysInOrder(n, ss, steps, k - 1);
      assert Legal(ThePipe(n), ss[k - 1], steps[k - 1], ss[k - 1 + 1]) && Client(ss[k - 1], steps[k - 1]);
      DataAfter(n, ss[k - 1], steps[k - 1]);
    }
  }

  lemma TwoLocks(n: nat, s: State<Ring>)
    requires Shape(ThePipe(n), s)
    ensures |s.data| == 2
  {
  }

  /** Whenever the spinlock is free the pipe is at rest: whoever sleeps could not go
      on, and so readers and writers do not both sleep. */
  lemma RestWhenFree(n: nat, ss: seq<State<Ring>>, steps: seq<Step<Ring>>, k: nat)
    requires IsClientRun(n, ss, steps) && k <= |steps| && IsFree(ss[k], LK)
    ensures |ss[k].data| == 2 && Pipe.AtRest(View(ss[k]))
    ensures Sleepers(ss[k], READERS) == {} || Sleepers(ss[k], WRITERS) == {}
  {
    AlwaysInOrder(n, ss, steps, k);
    forall i | i in Sleepers(ss[k], READERS) || i in Sleepers(ss[k], WRITERS)
      ensures Waits(ss[k].pcs[i].c, ss[k].data[LK])
    {
      NoSleeperLeft(ThePipe(n), ss, steps, k, i);
    }
    if Sleepers(ss[k], READERS) != {} {
      var i :| i in Sleepers(ss[k], READERS);
    }
    if Sleepers(ss[k], WRITERS) != {} {
      var i :| i in Sleepers(ss[k], WRITERS);
    }
  }

  /** A store into an empty open pipe owes the readers a wakeup, and the spinlock may
      not be given up before it: the promise that pipewrite breaks when it fails after
      it has filled the pipe. */
  lemma StoreOwesWakeup(n: nat, s: State<Ring>, i: nat, y: Ring)
    requires Enabled(ThePipe(n), s, Modify(i, LK, y)) && Stores(s.data[LK], y) && Empty(s.data[LK]) && s.data[LK].writeopen
    ensures var r := Do(ThePipe(n), s, Modify(i, LK, y)); READERS in r.owes[i] && !Enabled(ThePipe(n), r, Release(i, LK))
  {
    var r := Do(ThePipe(n), s, Modify(i, LK, y));
    assert Waits(READERS, s.data[LK]) && !Waits(READERS, y);
    assert ThePipe(n).lockOf[READERS] == LK && ThePipe(n).blocked(READERS, s.data[LK]);
    assert LockOf(ThePipe(n), READERS) == LK;
  }
}
