/** Sleep-locks (sleeplock.c) as clients of sleep and wakeup: one channel, whose
    spinlock is the lock's own `lk` and whose condition is `locked`. */
module SleepLock {
  import opened Common
  import opened Sleep

  /** The spinlock inside the sleep-lock. It protects `locked` and `pid` as one
      number: 0 when free, and else one more than the process that has it. */
  const LK: nat := 1

  function TheWorld(n: nat): World<int> {
    World(n, 2, [LK], (c, x) => x != 0)
  }

  /** The processes that have returned from acquiresleep and not yet set `locked`
      back in releasesleep, after the first `k` steps. */
  ghost function Inside(steps: seq<Step<int>>, k: nat): set<nat>
    requires k <= |steps|
  {
    if k == 0 then {}
    else
      match steps[k - 1]
      case Modify(i, l, x) =>
        if l != LK then Inside(steps, k - 1) else if x == 0 then Inside(steps, k - 1) - {i} else Inside(steps, k - 1) + {i}
      case _ => Inside(steps, k - 1)
  }

  /** The lock's fields change in two places only: acquiresleep sets them after its
      loop has seen the lock free, and releasesleep, called by a process that has
      the lock, clears them. */
  ghost predicate Client(s: State<int>, inside: set<nat>, step: Step<int>) {
    step.Modify? && step.l == LK ==>
      || (step.x == step.i + 1 && step.i < |s.tested| && s.tested[step.i] == Some(Verdict(0, false)))
      || (step.x == 0 && step.i in inside)
  }

  ghost predicate IsClientRun(n: nat, ss: seq<State<int>>, steps: seq<Step<int>>) {
    && IsRun(TheWorld(n), ss, steps) && ss[0].data[LK] == 0
    && forall k :: 0 <= k < |steps| ==> Client(ss[k], Inside(steps, k), steps[k])
  }

  /** The lock's fields name exactly the process inside. */
  ghost predicate Named(s: State<int>, inside: set<nat>) {
    && |s.data| == 2 && (s.data[LK] == 0 || (s.data[LK] > 0 && s.data[LK] - 1 in inside))
    && forall i: nat :: i in inside ==> s.data[LK] == i + 1
  }

  lemma {:induction false} InsideIs(n: nat, ss: seq<State<int>>, steps: seq<Step<int>>, k: nat)
    requires IsClientRun(n, ss, steps) && k <= |steps|
    ensures Named(ss[k], Inside(steps, k))
  {
    hide Named, Do, Enabled, Inv, TheWorld, Client, Initial;
    if k == 0 {
      assert Named(ss[0], {}) by {
        Unlocked(n, ss[0]);
      }
    } else {
      InsideIs(n, ss, steps, k - 1);
      RunsKeepInv(TheWorld(n), ss, steps, k - 1);
      var s, step := ss[k - 1], steps[k - 1];
      assert Legal(TheWorld(n), s, step, ss[k - 1 + 1]) && Client(s, Inside(steps, k - 1), step);
      DataKept(TheWorld(n), s, step);
      if step.Modify? && step.l == LK {
        FieldsSet(n, s, step, ss[k], Inside(steps, k - 1));
      } else {
        FieldsKept(n, s, step, ss[k], Inside(steps, k - 1));
      }
    }
  }

  lemma Unlocked(n: nat, s: State<int>)
    requires Initial(TheWorld(n), s) && s.data[LK] == 0
    ensures Named(s, {})
  {
  }

  lemma FieldsSet(n: nat, s: State<int>, step: Step<int>, r: State<int>, inside: set<nat>)
    requires Inv(TheWorld(n), s) && Enabled(TheWorld(n), s, step) && step.Modify? && step.l == LK
    requires r.data == s.data[step.l := step.x] && Client(s, inside, step) && Named(s, inside)
    ensures Named(r, if step.x == 0 then inside - {step.i} else inside + {step.i})
  {
    assert ProcOk(TheWorld(n), s, step.i);
  }

  lemma FieldsKept(n: nat, s: State<int>, step: Step<int>, r: State<int>, inside: set<nat>)
    requires Enabled(TheWorld(n), s, step) && !(step.Modify? && step.l == LK)
    requires r.data == if step.Modify? then s.data[step.l := step.x] else s.data
    requires Named(s, inside)
    ensures Named(r, inside)
  {
  }

  lemma DataKept(w: World<int>, s: State<int>, step: Step<int>)
    requires Enabled(w, s, step)
    ensures step.Modify? ==> step.l < |s.data|
    ensures Do(w, s, step).data == if step.Modify? then s.data[step.l := step.x] else s.data
  {
  }

  /** At most one process has the sleep-lock, in every state of every run. */
  lemma MutualExclusion(n: nat, ss: seq<State<int>>, steps: seq<Step<int>>, k: nat, i: nat, j: nat)
    requires IsClientRun(n, ss, steps) && k <= |steps| && i in Inside(steps, k) && j in Inside(steps, k)
    ensures i == j
  {
    InsideIs(n, ss, steps, k);
  }

  /** No sleeper is left behind on a free lock: while the spinlock is free and a
      process sleeps, some process has the sleep-lock and has yet to release it. It
      is the sleeper only if that one asked for a lock it has. */
  lemma SleepersHaveAWaker(n: nat, ss: seq<State<int>>, steps: seq<Step<int>>, k: nat, i: nat)
    requires IsClientRun(n, ss, steps) && k <= |steps| && i < |ss[k].pcs| && ss[k].pcs[i] == Asleep(0) && IsFree(ss[k], LK)
    ensures exists h: nat :: h in Inside(steps, k) && (h == i <==> i in Inside(steps, k))
  {
    NoSleeperLeft(TheWorld(n), ss, steps, k, i);
    InsideIs(n, ss, steps, k);
    var h: nat := ss[k].data[LK] - 1;
  }
}
