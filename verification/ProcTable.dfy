/** The process table of proc.c. A step is a critical section of ptable.lock, or
    one of the writes fork makes to a child nobody else can see yet; any number of
    processes and CPUs take steps in any order. */
module ProcTable {
  import opened Common

  datatype PState = UNUSED | EMBRYO | SLEEPING | RUNNABLE | RUNNING | ZOMBIE
  /** What a process sleeps on: the address of a proc (in wait) or another address. */
  datatype Chan = NoChan | ProcChan(i: nat) | Other(c: nat)
  datatype Proc = Proc(state: PState, pid: nat, parent: Option<nat>, chan: Chan, killed: bool)

  /** `forks` tells for each EMBRYO slot which process is creating it. `exited` and
      `reaped` record the pids that called exit() and that wait() returned. */
  datatype Table = Table(
    procs: seq<Proc>,
    cpus: seq<Option<nat>>,
    nextpid: nat,
    init: nat,
    forks: map<nat, nat>,
    exited: set<nat>,
    reaped: seq<nat>)

  predicate Live(s: PState) {
    s == SLEEPING || s == RUNNABLE || s == RUNNING
  }

  // -------------------------------------------------- what the loops compute

  /** wakeup1(chan) */
  function Woken(procs: seq<Proc>, chan: Chan): (r: seq<Proc>)
    ensures |r| == |procs|
  {
    seq(|procs|, i requires 0 <= i < |procs| =>
      if procs[i].state == SLEEPING && procs[i].chan == chan then procs[i].(state := RUNNABLE) else procs[i])
  }

  /** exit()'s loop: the first `n` slots, if children of `p`, become init's. */
  function Adopted(procs: seq<Proc>, p: nat, init: nat, n: nat): (r: seq<Proc>)
    requires n <= |procs|
    ensures |r| == |procs|
  {
    seq(|procs|, i requires 0 <= i < |procs| =>
      if i < n && procs[i].parent == Some(p) then procs[i].(parent := Some(init)) else procs[i])
  }

  ghost predicate ZombieChild(procs: seq<Proc>, p: nat, n: nat) {
    exists i :: 0 <= i < n && i < |procs| && procs[i].parent == Some(p) && procs[i].state == ZOMBIE
  }

  /** exit() past closing files: wake the parent, pass the children to init and wake
      it if one of them is a zombie, become a zombie. */
  ghost function Exited(procs: seq<Proc>, p: nat, init: nat): (r: seq<Proc>)
    requires p < |procs|
    ensures |r| == |procs|
  {
    var w := if procs[p].parent.Some? then Woken(procs, ProcChan(procs[p].parent.value)) else procs;
    var a := Adopted(w, p, init, |w|);
    var b := if ZombieChild(procs, p, |procs|) then Woken(a, ProcChan(init)) else a;
    b[p := b[p].(state := ZOMBIE)]
  }

  /** wait()'s scan: the first zombie child, else whether there are children. */
  datatype Scan = Found(i: nat) | Children | Childless

  ghost predicate ScanOf(procs: seq<Proc>, p: nat, r: Scan) {
    match r
    case Found(i) =>
      && i < |procs| && procs[i].parent == Some(p) && procs[i].state == ZOMBIE
      && forall j :: 0 <= j < i ==> !(procs[j].parent == Some(p) && procs[j].state == ZOMBIE)
    case Children =>
      && (exists j :: 0 <= j < |procs| && procs[j].parent == Some(p))
      && forall j :: 0 <= j < |procs| && procs[j].parent == Some(p) ==> procs[j].state != ZOMBIE
    case Childless =>
      forall j :: 0 <= j < |procs| ==> procs[j].parent != Some(p)
  }

  /** The slot wait() clears. */
  function Cleared(p: Proc): Proc {
    p.(state := UNUSED, pid := 0, parent := None, killed := false)
  }

  /** The first slot from `i` on with this pid, or the end. */
  function FirstWith(procs: seq<Proc>, pid: nat, i: nat): (k: nat)
    requires i <= |procs|
    ensures i <= k <= |procs| && (k < |procs| ==> procs[k].pid == pid)
    ensures forall j :: i <= j < k ==> procs[j].pid != pid
    decreases |procs| - i
  {
    if i == |procs| || procs[i].pid == pid then i else FirstWith(procs, pid, i + 1)
  }

  /** kill(): the process is marked, and woken if it sleeps. */
  function Killed(procs: seq<Proc>, pid: nat): (r: seq<Proc>)
    ensures |r| == |procs|
  {
    var k := FirstWith(procs, pid, 0);
    if k == |procs| then procs
    else procs[k := procs[k].(killed := true, state := if procs[k].state == SLEEPING then RUNNABLE else procs[k].state)]
  }

  /** What kill() does to slot `s`. */
  ghost predicate KilledSlot(procs: seq<Proc>, r: seq<Proc>, pid: nat, s: nat)
    requires s < |procs| == |r|
  {
    if procs[s].pid == pid && forall j :: 0 <= j < s ==> procs[j].pid != pid then
      && r[s].killed && r[s].state == (if procs[s].state == SLEEPING then RUNNABLE else procs[s].state)
      && r[s].pid == pid && r[s].parent == procs[s].parent && r[s].chan == procs[s].chan
    else r[s] == procs[s]
  }

  // ----------------------------------------------------------------- steps

  datatype Step =
    | Alloc(cpu: nat, slot: nat)
    | ForkFails(slot: nat)
    | SetParent(slot: nat)
    | ForkDone(slot: nat)
    | Schedule(cpu: nat, p: nat)
    | Yield(cpu: nat)
    | Sleep(cpu: nat, chan: Chan)
    | Wakeup(chan: Chan)
    | Exit(cpu: nat)
    | Wait(cpu: nat, scan: Scan)
    | Kill(pid: nat)

  /** The process on a CPU, not in the middle of a fork. */
  ghost predicate Acts(t: Table, cpu: nat) {
    && cpu < |t.cpus| && t.cpus[cpu].Some? && t.cpus[cpu].value < |t.procs|
    && forall s :: s in t.forks ==> t.forks[s] != t.cpus[cpu].value
  }

  ghost predicate Enabled(t: Table, step: Step) {
    match step
    case Alloc(c, s) => Acts(t, c) && s < |t.procs| && t.procs[s].state == UNUSED
    case ForkFails(s) => s in t.forks && s < |t.procs| && t.procs[s].parent == None
    case SetParent(s) => s in t.forks && s < |t.procs|
    case ForkDone(s) => s in t.forks && s < |t.procs| && t.procs[s].parent == Some(t.forks[s])
    case Schedule(c, p) => c < |t.cpus| && t.cpus[c] == None && p < |t.procs| && t.procs[p].state == RUNNABLE
    case Yield(c) => c < |t.cpus| && t.cpus[c].Some? && t.cpus[c].value < |t.procs|
    case Sleep(c, chan) => Acts(t, c) && chan.Other?
    case Wakeup(chan) => chan.Other?
    case Exit(c) => Acts(t, c) && t.cpus[c].value != t.init
    case Wait(c, scan) => Acts(t, c) && ScanOf(t.procs, t.cpus[c].value, scan)
    case Kill(pid) => true
  }

  ghost function Do(t: Table, step: Step): (r: Table)
    requires Enabled(t, step)
    ensures |r.procs| == |t.procs| && r.init == t.init
  {
    match step
    case Alloc(c, s) =>
      t.(procs := t.procs[s := t.procs[s].(state := EMBRYO, pid := t.nextpid)], nextpid := t.nextpid + 1,
         forks := t.forks[s := t.cpus[c].value])
    case ForkFails(s) =>
      t.(procs := t.procs[s := t.procs[s].(state := UNUSED)], forks := t.forks - {s})
    case SetParent(s) =>
      t.(procs := t.procs[s := t.procs[s].(parent := Some(t.forks[s]))])
    case ForkDone(s) =>
      t.(procs := t.procs[s := t.procs[s].(state := RUNNABLE)], forks := t.forks - {s})
    case Schedule(c, p) =>
      t.(procs := t.procs[p := t.procs[p].(state := RUNNING, chan := NoChan)], cpus := t.cpus[c := Some(p)])
    case Yield(c) =>
      var p := t.cpus[c].value;
      t.(procs := t.procs[p := t.procs[p].(state := RUNNABLE)], cpus := t.cpus[c := None])
    case Sleep(c, chan) => Asleep(t, c, chan)
    case Wakeup(chan) => t.(procs := Woken(t.procs, chan))
    case Exit(c) =>
      var p := t.cpus[c].value;
      t.(procs := Exited(t.procs, p, t.init), cpus := t.cpus[c := None], exited := t.exited + {t.procs[p].pid})
    case Kill(pid) => t.(procs := Killed(t.procs, pid))
    case Wait(c, scan) =>
      match scan
      case Found(i) => t.(procs := t.procs[i := Cleared(t.procs[i])], reaped := t.reaped + [t.procs[i].pid])
      case Childless => t
      case Children => if t.procs[t.cpus[c].value].killed then t else Asleep(t, c, ProcChan(t.cpus[c].value))
  }

  /** sleep(): the process leaves its CPU asleep on `chan`. */
  function Asleep(t: Table, c: nat, chan: Chan): (r: Table)
    requires c < |t.cpus| && t.cpus[c].Some? && t.cpus[c].value < |t.procs|
  {
    var p := t.cpus[c].value;
    t.(procs := t.procs[p := t.procs[p].(state := SLEEPING, chan := chan)], cpus := t.cpus[c := None])
  }

  // ------------------------------------------------------------- invariant

  /** RUNNING is the same as being on a CPU, and on one CPU only. */
  ghost predicate OnCpu(procs: seq<Proc>, cpus: seq<Option<nat>>) {
    && (forall c :: 0 <= c < |cpus| && cpus[c].Some? ==> cpus[c].value < |procs| && procs[cpus[c].value].state == RUNNING)
    && (forall i :: 0 <= i < |procs| && procs[i].state == RUNNING ==> exists c :: 0 <= c < |cpus| && cpus[c] == Some(i))
    && (forall c, d :: 0 <= c < d < |cpus| && cpus[c].Some? ==> cpus[c] != cpus[d])
  }

  /** A slot's parent is sound: everyone alive or a zombie has a live parent, init
      has none, and a child under construction has its creator or nobody. */
  ghost predicate ParentOk(procs: seq<Proc>, init: nat, forks: map<nat, nat>, i: nat) {
    i < |procs| && match procs[i].state
    case UNUSED => procs[i].parent == None && i !in forks && i != init
    case EMBRYO => i in forks && i != init && forks[i] < |procs| && Live(procs[forks[i]].state)
                   && (procs[i].parent == None || procs[i].parent == Some(forks[i]))
    case _ => i !in forks && if i == init then procs[i].parent == None && procs[i].state != ZOMBIE else
                procs[i].parent.Some? && procs[i].parent.value < |procs| && procs[i].parent.value != i && Live(procs[procs[i].parent.value].state)
  }

  ghost predicate Parents(procs: seq<Proc>, init: nat, forks: map<nat, nat>) {
    && init < |procs| && (forall i :: 0 <= i < |procs| ==> ParentOk(procs, init, forks, i))
    && (forall s :: s in forks ==> s < |procs|)
  }

  predicate InWait(p: Proc, i: nat) {
    p.state == SLEEPING && p.chan == ProcChan(i)
  }

  /** Nobody sleeps in wait() with a zombie child. */
  ghost predicate NoMissedExit(procs: seq<Proc>) {
    forall i, j :: 0 <= i < |procs| && 0 <= j < |procs| && InWait(procs[i], i) && procs[j].parent == Some(i) ==>
      procs[j].state != ZOMBIE
  }

  /** Nobody sleeps in wait() who has been killed. */
  ghost predicate KilledAwake(procs: seq<Proc>) {
    forall i :: 0 <= i < |procs| && InWait(procs[i], i) ==> !procs[i].killed
  }

  /** Slot `i` and the history agree on its pid. */
  ghost predicate PidOk(t: Table, i: nat) {
    i < |t.procs| && (t.procs[i].state != UNUSED ==>
      && 0 < t.procs[i].pid < t.nextpid && t.procs[i].pid !in t.reaped
      && (t.procs[i].pid in t.exited <==> t.procs[i].state == ZOMBIE))
  }

  ghost predicate IsZombie(procs: seq<Proc>, pid: nat) {
    exists i :: 0 <= i < |procs| && procs[i].state == ZOMBIE && procs[i].pid == pid
  }

  /** Every pid that exited is a zombie's or was reaped; none was reaped twice. */
  ghost predicate Accounted(t: Table) {
    && (forall i :: 0 <= i < |t.procs| ==> PidOk(t, i))
    && (forall i, j :: 0 <= i < j < |t.procs| && t.procs[i].state != UNUSED && t.procs[j].state != UNUSED ==>
          t.procs[i].pid != t.procs[j].pid)
    && (forall x :: x in t.reaped ==> x in t.exited)
    && (forall a, b :: 0 <= a < b < |t.reaped| ==> t.reaped[a] != t.reaped[b])
    && (forall x :: x in t.exited ==> x < t.nextpid && (x in t.reaped || IsZombie(t.procs, x)))
  }

  ghost predicate Inv(t: Table) {
    && OnCpu(t.procs, t.cpus) && Parents(t.procs, t.init, t.forks) && NoMissedExit(t.procs) && Accounted(t)
    && KilledAwake(t.procs) && t.nextpid >= 1
  }

  // ------------------------------------------------------------ every step

  /** Slot states that count the same for parents and zombies. */
  predicate SameKind(a: PState, b: PState) {
    Live(a) == Live(b) && (a == ZOMBIE) == (b == ZOMBIE) && (a == UNUSED) == (b == UNUSED) && (a == EMBRYO) == (b == EMBRYO)
  }

  /** Steps that only move live processes between asleep, runnable and running. */
  ghost predicate OnlyScheduling(t: Table, r: Table) {
    && |r.procs| == |t.procs| && r.init == t.init && r.forks == t.forks && r.nextpid == t.nextpid
    && r.exited == t.exited && r.reaped == t.reaped
    && forall i :: 0 <= i < |t.procs| ==>
         SameKind(t.procs[i].state, r.procs[i].state) && r.procs[i].pid == t.procs[i].pid && r.procs[i].parent == t.procs[i].parent
  }

  lemma SchedulingKeeps(t: Table, r: Table)
    requires Parents(t.procs, t.init, t.forks) && Accounted(t) && OnlyScheduling(t, r)
    ensures Parents(r.procs, r.init, r.forks) && Accounted(r)
  {
    forall i | 0 <= i < |r.procs|
      ensures ParentOk(r.procs, r.init, r.forks, i)
    {
      assert ParentOk(t.procs, t.init, t.forks, i);
    }
    forall i | 0 <= i < |r.procs|
      ensures PidOk(r, i)
    {
      assert PidOk(t, i);
    }
    forall x | x in r.exited
      ensures x < r.nextpid && (x in r.reaped || IsZombie(r.procs, x))
    {
      if x !in t.reaped {
        var i :| 0 <= i < |t.procs| && t.procs[i].state == ZOMBIE && t.procs[i].pid == x;
        assert r.procs[i].state == ZOMBIE && r.procs[i].pid == x;
      }
    }
  }

  lemma ScheduleKeeps(t: Table, c: nat, p: nat)
    requires Inv(t) && Enabled(t, Schedule(c, p))
    ensures Inv(Do(t, Schedule(c, p)))
  {
    var r := Do(t, Schedule(c, p));
    SchedulingKeeps(t, r);
    hide Parents, Accounted;
    assert OnCpu(r.procs, r.cpus) by {
      forall i | 0 <= i < |r.procs| && r.procs[i].state == RUNNING
        ensures exists d :: 0 <= d < |r.cpus| && r.cpus[d] == Some(i)
      {
        if i == p {
          assert r.cpus[c] == Some(i);
        } else {
          var d :| 0 <= d < |t.cpus| && t.cpus[d] == Some(i);
          assert r.cpus[d] == Some(i);
        }
      }
    }
  }

  /** A process gives up its CPU and stays alive. */
  lemma LeaveCpu(t: Table, c: nat, q: Proc)
    requires OnCpu(t.procs, t.cpus) && c < |t.cpus| && t.cpus[c].Some? && q.state != RUNNING
    ensures t.cpus[c].value < |t.procs|
    ensures OnCpu(t.procs[t.cpus[c].value := q], t.cpus[c := None])
  {
    var p := t.cpus[c].value;
    var procs, cpus := t.procs[p := q], t.cpus[c := None];
    forall i | 0 <= i < |procs| && procs[i].state == RUNNING
      ensures exists d :: 0 <= d < |cpus| && cpus[d] == Some(i)
    {
      var d :| 0 <= d < |t.cpus| && t.cpus[d] == Some(i);
      assert cpus[d] == Some(i);
    }
  }

  lemma YieldKeeps(t: Table, c: nat)
    requires Inv(t) && Enabled(t, Yield(c))
    ensures Inv(Do(t, Yield(c)))
  {
    SchedulingKeeps(t, Do(t, Yield(c)));
    LeaveCpu(t, c, t.procs[t.cpus[c].value].(state := RUNNABLE));
    hide Parents, Accounted, OnCpu;
  }

  /** Falling asleep, in wait() only with no zombie child. */
  lemma AsleepKeeps(t: Table, c: nat, chan: Chan)
    requires Inv(t) && Acts(t, c) && chan != NoChan
    requires chan.ProcChan? ==> chan.i == t.cpus[c].value && ScanOf(t.procs, chan.i, Children) && !t.procs[chan.i].killed
    ensures Inv(Asleep(t, c, chan))
  {
    SchedulingKeeps(t, Asleep(t, c, chan));
    LeaveCpu(t, c, t.procs[t.cpus[c].value].(state := SLEEPING, chan := chan));
    hide Parents, Accounted, OnCpu;
  }

  lemma WakeupKeeps(t: Table, chan: Chan)
    requires Inv(t)
    ensures Inv(t.(procs := Woken(t.procs, chan)))
  {
    var r := t.(procs := Woken(t.procs, chan));
    SchedulingKeeps(t, r);
    hide Parents, Accounted;
    assert OnCpu(r.procs, r.cpus) by {
      assert forall i :: 0 <= i < |r.procs| ==> (r.procs[i].state == RUNNING <==> t.procs[i].state == RUNNING);
    }
  }

  lemma KillKeeps(t: Table, pid: nat)
    requires Inv(t)
    ensures Inv(t.(procs := Killed(t.procs, pid)))
  {
    var r := t.(procs := Killed(t.procs, pid));
    SchedulingKeeps(t, r);
    hide Parents, Accounted;
    assert OnCpu(r.procs, r.cpus) by {
      assert forall i :: 0 <= i < |r.procs| ==> (r.procs[i].state == RUNNING <==> t.procs[i].state == RUNNING);
    }
  }

  /** Only slot `s` changed, among states that are neither live nor a zombie, or by
      coming to life; nobody has it for a parent. */
  ghost predicate OnlySlot(t: Table, r: Table, s: nat) {
    && |r.procs| == |t.procs| && s < |t.procs| && r.cpus == t.cpus && r.init == t.init
    && (forall i :: 0 <= i < |t.procs| && i != s ==> r.procs[i] == t.procs[i])
    && !Live(t.procs[s].state) && r.procs[s].state != ZOMBIE && r.procs[s].state != RUNNING && r.procs[s].state != SLEEPING
    && (forall i :: 0 <= i < |t.procs| && t.procs[i].state != UNUSED ==> t.procs[i].parent != Some(s))
  }

  lemma OnlySlotKeeps(t: Table, r: Table, s: nat)
    requires OnCpu(t.procs, t.cpus) && NoMissedExit(t.procs) && KilledAwake(t.procs) && OnlySlot(t, r, s)
    ensures OnCpu(r.procs, r.cpus) && NoMissedExit(r.procs) && KilledAwake(r.procs)
  {
  }

  /** Nobody alive, dead or under construction has a parent that is not live. */
  lemma NoChildren(t: Table, s: nat)
    requires Parents(t.procs, t.init, t.forks) && s < |t.procs| && !Live(t.procs[s].state)
    ensures forall i :: 0 <= i < |t.procs| ==> t.procs[i].parent != Some(s)
  {
    forall i | 0 <= i < |t.procs|
      ensures t.procs[i].parent != Some(s)
    {
      assert ParentOk(t.procs, t.init, t.forks, i);
    }
  }

  lemma AllocKeeps(t: Table, c: nat, s: nat)
    requires Inv(t) && Enabled(t, Alloc(c, s))
    ensures Inv(Do(t, Alloc(c, s)))
  {
    var r := Do(t, Alloc(c, s));
    NoChildren(t, s);
    OnlySlotKeeps(t, r, s);
    assert Parents(r.procs, r.init, r.forks) by {
      hide Accounted, NoMissedExit;
      forall i | 0 <= i < |r.procs|
        ensures ParentOk(r.procs, r.init, r.forks, i)
      {
        assert ParentOk(t.procs, t.init, t.forks, i) && ParentOk(t.procs, t.init, t.forks, s);
      }
    }
    assert Accounted(r) by {
      hide Parents, OnCpu, NoMissedExit;
      PidsKept(t, r, s);
    }
  }

  /** The pid accounts survive a change of slot `s` to a pid that fits. */
  lemma PidsKept(t: Table, r: Table, s: nat)
    requires Accounted(t) && |r.procs| == |t.procs| && s < |t.procs| && t.procs[s].state != ZOMBIE
    requires forall i :: 0 <= i < |t.procs| && i != s ==> r.procs[i] == t.procs[i]
    requires r.exited == t.exited && r.reaped == t.reaped && r.nextpid >= t.nextpid
    requires PidOk(r, s) && r.procs[s].state != ZOMBIE
    requires r.procs[s].state != UNUSED ==>
               r.procs[s].pid == t.nextpid || (t.procs[s].state != UNUSED && r.procs[s].pid == t.procs[s].pid)
    ensures Accounted(r)
  {
    forall i | 0 <= i < |r.procs|
      ensures PidOk(r, i)
    {
      assert PidOk(t, i);
    }
    forall i, j | 0 <= i < j < |r.procs| && r.procs[i].state != UNUSED && r.procs[j].state != UNUSED
      ensures r.procs[i].pid != r.procs[j].pid
    {
      assert PidOk(t, i) && PidOk(t, j);
    }
    forall x | x in r.exited
      ensures x < r.nextpid && (x in r.reaped || IsZombie(r.procs, x))
    {
      if x !in t.reaped {
        var i :| 0 <= i < |t.procs| && t.procs[i].state == ZOMBIE && t.procs[i].pid == x;
        assert r.procs[i].state == ZOMBIE && r.procs[i].pid == x;
      }
    }
  }

  /** The later steps of fork, on the slot it took. */
  lemma ForkStepKeeps(t: Table, step: Step)
    requires Inv(t) && Enabled(t, step) && (step.ForkFails? || step.SetParent? || step.ForkDone?)
    ensures Inv(Do(t, step))
  {
    var r, s := Do(t, step), step.slot;
    assert ParentOk(t.procs, t.init, t.forks, s) && PidOk(t, s);
    NoChildren(t, s);
    OnlySlotKeeps(t, r, s);
    assert Parents(r.procs, r.init, r.forks) by {
      hide Accounted, NoMissedExit, OnCpu;
      forall i | 0 <= i < |r.procs|
        ensures ParentOk(r.procs, r.init, r.forks, i)
      {
        assert ParentOk(t.procs, t.init, t.forks, i);
      }
    }
    assert Accounted(r) by {
      hide Parents, OnCpu, NoMissedExit;
      PidsKept(t, r, s);
    }
  }

  /** wait() reaping the zombie in slot `i`. */
  lemma ReapKeeps(t: Table, c: nat, i: nat)
    requires Inv(t) && Enabled(t, Wait(c, Found(i)))
    ensures Inv(Do(t, Wait(c, Found(i))))
    ensures t.procs[i].pid in t.exited && t.procs[i].pid !in t.reaped
  {
    var r := Do(t, Wait(c, Found(i)));
    assert ParentOk(t.procs, t.init, t.forks, i) && PidOk(t, i);
    NoChildren(t, i);
    OnlySlotKeeps(t, r, i);
    assert Parents(r.procs, r.init, r.forks) by {
      hide Accounted, NoMissedExit, OnCpu;
      forall k | 0 <= k < |r.procs|
        ensures ParentOk(r.procs, r.init, r.forks, k)
      {
        assert ParentOk(t.procs, t.init, t.forks, k);
      }
    }
    assert Accounted(r) by {
      hide Parents, OnCpu, NoMissedExit;
      ReapAccounted(t, r, i);
    }
  }

  lemma ReapAccounted(t: Table, r: Table, i: nat)
    requires Accounted(t) && i < |t.procs| && t.procs[i].state == ZOMBIE
    requires r == t.(procs := t.procs[i := Cleared(t.procs[i])], reaped := t.reaped + [t.procs[i].pid])
    ensures Accounted(r)
  {
    assert PidOk(t, i);
    forall k | 0 <= k < |r.procs|
      ensures PidOk(r, k)
    {
      assert PidOk(t, k);
      assert k != i && t.procs[k].state != UNUSED ==> t.procs[k].pid != t.procs[i].pid;
    }
    forall x | x in r.exited
      ensures x < r.nextpid && (x in r.reaped || IsZombie(r.procs, x))
    {
      if x !in t.reaped && x != t.procs[i].pid {
        var k :| 0 <= k < |t.procs| && t.procs[k].state == ZOMBIE && t.procs[k].pid == x;
        assert r.procs[k].state == ZOMBIE && r.procs[k].pid == x;
      }
    }
  }

  // ------------------------------------------------------------------ exit

  /** What exit() of process `p` does to slot `i`. */
  ghost predicate SlotExit(procs: seq<Proc>, r: seq<Proc>, p: nat, init: nat, i: nat) {
    && i < |procs| == |r| && p < |procs|
    && r[i].pid == procs[i].pid && r[i].chan == procs[i].chan && r[i].killed == procs[i].killed
    && r[i].parent == (if procs[i].parent == Some(p) then Some(init) else procs[i].parent)
    && (i == p ==> r[i].state == ZOMBIE)
    && (i != p ==> r[i].state == procs[i].state || (procs[i].state == SLEEPING && r[i].state == RUNNABLE))
    && (i != p && procs[p].parent == Some(i) ==> !InWait(r[i], i))
    && (i != p && i == init && ZombieChild(procs, p, |procs|) ==> !InWait(r[i], i))
  }

  lemma ExitedAt(procs: seq<Proc>, p: nat, init: nat, i: nat)
    requires p < |procs| && i < |procs|
    ensures SlotExit(procs, Exited(procs, p, init), p, init, i)
  {
  }

  ghost predicate ExitEffect(procs: seq<Proc>, r: seq<Proc>, p: nat, init: nat) {
    |r| == |procs| && p < |procs| && forall i :: 0 <= i < |procs| ==> SlotExit(procs, r, p, init, i)
  }

  lemma ExitOnCpu(t: Table, r: seq<Proc>, c: nat)
    requires OnCpu(t.procs, t.cpus) && c < |t.cpus| && t.cpus[c].Some? && ExitEffect(t.procs, r, t.cpus[c].value, t.init)
    ensures OnCpu(r, t.cpus[c := None])
  {
    var p, cpus := t.cpus[c].value, t.cpus[c := None];
    forall d | 0 <= d < |cpus| && cpus[d].Some?
      ensures cpus[d].value < |r| && r[cpus[d].value].state == RUNNING
    {
      assert SlotExit(t.procs, r, p, t.init, cpus[d].value);
    }
    forall i | 0 <= i < |r| && r[i].state == RUNNING
      ensures exists d :: 0 <= d < |cpus| && cpus[d] == Some(i)
    {
      assert SlotExit(t.procs, r, p, t.init, i);
      var d :| 0 <= d < |t.cpus| && t.cpus[d] == Some(i);
      assert cpus[d] == Some(i);
    }
  }

  lemma ExitParents(t: Table, r: seq<Proc>, p: nat)
    requires Parents(t.procs, t.init, t.forks) && ExitEffect(t.procs, r, p, t.init)
    requires p != t.init && Live(t.procs[p].state) && forall s :: s in t.forks ==> t.forks[s] != p
    ensures Parents(r, t.init, t.forks)
  {
    forall i | 0 <= i < |r|
      ensures ParentOk(r, t.init, t.forks, i)
    {
      assert ParentOk(t.procs, t.init, t.forks, i) && SlotExit(t.procs, r, p, t.init, i);
      assert ParentOk(t.procs, t.init, t.forks, t.init) && SlotExit(t.procs, r, p, t.init, t.init);
      if t.procs[i].parent.Some? {
        assert SlotExit(t.procs, r, p, t.init, t.procs[i].parent.value);
      }
      if i in t.forks {
        assert SlotExit(t.procs, r, p, t.init, t.forks[i]);
      }
    }
  }

  lemma ExitNoMissed(t: Table, r: seq<Proc>, p: nat)
    requires NoMissedExit(t.procs) && ExitEffect(t.procs, r, p, t.init) && p != t.init
    requires Parents(t.procs, t.init, t.forks)
    ensures NoMissedExit(r)
  {
    assert ParentOk(t.procs, t.init, t.forks, p);
    assert forall j :: 0 <= j < |t.procs| && t.procs[j].parent == Some(p) && t.procs[j].state == ZOMBIE ==>
             ZombieChild(t.procs, p, |t.procs|);
    forall i, j | 0 <= i < |r| && 0 <= j < |r| && InWait(r[i], i) && r[j].parent == Some(i)
      ensures r[j].state != ZOMBIE
    {
      assert SlotExit(t.procs, r, p, t.init, i) && SlotExit(t.procs, r, p, t.init, j);
    }
  }

  lemma ExitKilled(procs: seq<Proc>, r: seq<Proc>, p: nat, init: nat)
    requires KilledAwake(procs) && ExitEffect(procs, r, p, init)
    ensures KilledAwake(r)
  {
    forall i | 0 <= i < |r| && InWait(r[i], i)
      ensures !r[i].killed
    {
      assert SlotExit(procs, r, p, init, i);
    }
  }

  lemma ExitAccounted(t: Table, r: Table, p: nat)
    requires Accounted(t) && ExitEffect(t.procs, r.procs, p, t.init) && Live(t.procs[p].state)
    requires r.exited == t.exited + {t.procs[p].pid} && r.reaped == t.reaped && r.nextpid == t.nextpid
    ensures Accounted(r) && t.procs[p].pid !in t.exited
  {
    assert PidOk(t, p);
    forall i | 0 <= i < |r.procs|
      ensures PidOk(r, i)
    {
      assert PidOk(t, i) && SlotExit(t.procs, r.procs, p, t.init, i);
      assert i != p && t.procs[i].state != UNUSED ==> t.procs[i].pid != t.procs[p].pid;
    }
    forall i, j | 0 <= i < j < |r.procs| && r.procs[i].state != UNUSED && r.procs[j].state != UNUSED
      ensures r.procs[i].pid != r.procs[j].pid
    {
      assert SlotExit(t.procs, r.procs, p, t.init, i) && SlotExit(t.procs, r.procs, p, t.init, j);
    }
    forall x | x in r.exited
      ensures x < r.nextpid && (x in r.reaped || IsZombie(r.procs, x))
    {
      if x == t.procs[p].pid {
        assert SlotExit(t.procs, r.procs, p, t.init, p);
        assert r.procs[p].state == ZOMBIE && r.procs[p].pid == x;
      } else if x !in t.reaped {
        var k :| 0 <= k < |t.procs| && t.procs[k].state == ZOMBIE && t.procs[k].pid == x;
        assert SlotExit(t.procs, r.procs, p, t.init, k);
        assert r.procs[k].state == ZOMBIE && r.procs[k].pid == x;
      }
    }
  }

  lemma ExitKeeps(t: Table, c: nat)
    requires Inv(t) && Enabled(t, Exit(c))
    ensures Inv(Do(t, Exit(c)))
    ensures t.procs[t.cpus[c].value].pid !in t.exited
  {
    var r, p := Do(t, Exit(c)), t.cpus[c].value;
    assert ExitEffect(t.procs, r.procs, p, t.init) by {
      forall i | 0 <= i < |t.procs|
        ensures SlotExit(t.procs, r.procs, p, t.init, i)
      {
        ExitedAt(t.procs, p, t.init, i);
      }
    }
    assert Live(t.procs[p].state);
    hide ExitEffect, Accounted, Parents, OnCpu, NoMissedExit, KilledAwake;
    ExitOnCpu(t, r.procs, c);
    ExitParents(t, r.procs, p);
    ExitNoMissed(t, r.procs, p);
    ExitKilled(t.procs, r.procs, p, t.init);
    ExitAccounted(t, r, p);
  }

  // ------------------------------------------------------------------ runs

  lemma StepKeepsInv(t: Table, step: Step)
    requires Inv(t) && Enabled(t, step)
    ensures Inv(Do(t, step))
  {
    hide Accounted, Parents, OnCpu, NoMissedExit, KilledAwake;
    match step
    case Alloc(c, s) => AllocKeeps(t, c, s);
    case ForkFails(s) => ForkStepKeeps(t, step);
    case SetParent(s) => ForkStepKeeps(t, step);
    case ForkDone(s) => ForkStepKeeps(t, step);
    case Schedule(c, p) => ScheduleKeeps(t, c, p);
    case Yield(c) => YieldKeeps(t, c);
    case Sleep(c, chan) => AsleepKeeps(t, c, chan);
    case Wakeup(chan) => WakeupKeeps(t, chan);
    case Exit(c) => ExitKeeps(t, c);
    case Kill(pid) => KillKeeps(t, pid);
    case Wait(c, scan) =>
      match scan
      case Found(i) => ReapKeeps(t, c, i);
      case Childless =>
      case Children =>
        if !t.procs[t.cpus[c].value].killed {
          AsleepKeeps(t, c, ProcChan(t.cpus[c].value));
        }
  }

  /** After userinit(): init is runnable, every other slot unused. */
  ghost predicate Init(t: Table) {
    && t.init < |t.procs| && t.procs[t.init] == Proc(RUNNABLE, 1, None, NoChan, false) && t.nextpid == 2
    && (forall i :: 0 <= i < |t.procs| && i != t.init ==>
          t.procs[i].state == UNUSED && t.procs[i].pid == 0 && t.procs[i].parent == None && !t.procs[i].killed)
    && (forall c :: 0 <= c < |t.cpus| ==> t.cpus[c] == None)
    && t.forks == map[] && t.exited == {} && t.reaped == []
  }

  lemma InitInv(t: Table)
    requires Init(t)
    ensures Inv(t)
  {
  }

  ghost predicate IsRun(ts: seq<Table>, steps: seq<Step>) {
    && |ts| == |steps| + 1 && Init(ts[0])
    && forall k :: 0 <= k < |steps| ==> Legal(ts[k], steps[k], ts[k + 1])
  }

  ghost predicate Legal(t: Table, step: Step, r: Table) {
    Enabled(t, step) && r == Do(t, step)
  }

  lemma {:induction false} RunsKeepInv(ts: seq<Table>, steps: seq<Step>, k: nat)
    requires IsRun(ts, steps) && k < |ts|
    ensures Inv(ts[k])
  {
    if k == 0 {
      InitInv(ts[0]);
    } else {
      RunsKeepInv(ts, steps, k - 1);
      assert Legal(ts[k - 1], steps[k - 1], ts[k - 1 + 1]);
      StepKeepsInv(ts[k - 1], steps[k - 1]);
    }
  }

  /** The history only grows along a run. */
  lemma {:induction false} HistoryGrows(ts: seq<Table>, steps: seq<Step>, j: nat, k: nat)
    requires IsRun(ts, steps) && j <= k < |ts|
    ensures ts[j].exited <= ts[k].exited && ts[j].reaped <= ts[k].reaped
  {
    if j < k {
      HistoryGrows(ts, steps, j, k - 1);
      assert Legal(ts[k - 1], steps[k - 1], ts[k - 1 + 1]);
    }
  }

  /** Each zombie is reaped exactly once: a pid that wait() returns in one step of a
      run had exited before and is returned by no other step. */
  lemma ReapedOnce(ts: seq<Table>, steps: seq<Step>, j: nat, k: nat)
    requires IsRun(ts, steps) && j < k < |steps|
    requires steps[j].Wait? && steps[j].scan.Found? && steps[k].Wait? && steps[k].scan.Found?
    requires steps[j].scan.i < |ts[j].procs| && steps[k].scan.i < |ts[k].procs|
    ensures ts[j].procs[steps[j].scan.i].pid != ts[k].procs[steps[k].scan.i].pid
    ensures ts[k].procs[steps[k].scan.i].pid in ts[k].exited
  {
    var x := ts[j].procs[steps[j].scan.i].pid;
    assert Legal(ts[j], steps[j], ts[j + 1]) && Legal(ts[k], steps[k], ts[k + 1]);
    assert ts[j + 1].reaped[|ts[j].reaped|] == x;
    HistoryGrows(ts, steps, j + 1, k);
    RunsKeepInv(ts, steps, k);
    ReapKeeps(ts[k], steps[k].cpu, steps[k].scan.i);
  }

  // --------------------------------------------------------- who is killed

  /** The step is a kill whose pid slot `s` is the first to have. */
  ghost predicate Hits(t: Table, step: Step, s: nat) {
    step.Kill? && s < |t.procs| && t.procs[s].pid == step.pid && forall j :: 0 <= j < s ==> t.procs[j].pid != step.pid
  }

  predicate Reaps(step: Step, s: nat) {
    step.Wait? && step.scan == Found(s)
  }

  /** A slot is marked by a kill that hits it, cleared when it is reaped, and else left
      as it is. */
  lemma KilledStep(t: Table, step: Step, s: nat)
    requires Enabled(t, step) && s < |t.procs|
    ensures Do(t, step).procs[s].killed <==> Hits(t, step, s) || (t.procs[s].killed && !Reaps(step, s))
  {
    if step.Exit? {
      ExitedAt(t.procs, t.cpus[step.cpu].value, t.init, s);
    }
  }

  /** Over every run a slot is marked as killed exactly when a kill has hit it and it
      has not been reaped since. So a process that was killed stays so until it is
      reaped. */
  lemma {:induction false} KilledExactly(ts: seq<Table>, steps: seq<Step>, k: nat, s: nat)
    requires IsRun(ts, steps) && k < |ts| && s < |ts[0].procs|
    ensures |ts[k].procs| == |ts[0].procs|
    ensures ts[k].procs[s].killed <==>
            exists j :: 0 <= j < k && Hits(ts[j], steps[j], s) && forall i :: j < i < k ==> !Reaps(steps[i], s)
  {
    hide Hits, Do, Enabled;
    if k > 0 {
      KilledExactly(ts, steps, k - 1, s);
      assert Legal(ts[k - 1], steps[k - 1], ts[k - 1 + 1]);
      KilledStep(ts[k - 1], steps[k - 1], s);
      HitsIsKill(ts[k - 1], steps[k - 1], s);
    }
  }

  lemma HitsIsKill(t: Table, step: Step, s: nat)
    ensures Hits(t, step, s) ==> !Reaps(step, s)
  {
  }

  /** kill() looks at the pid only, and an unused slot has pid 0: kill(0) marks one, and
      the next process to get that slot is born killed. */
  lemma BornKilled() returns (ts: seq<Table>, steps: seq<Step>)
    ensures IsRun(ts, steps) && |steps| == 3 && steps[1] == Kill(0) && steps[2] == Alloc(0, 1)
    ensures |ts[3].procs| == 2 && ts[3].procs[1].state == EMBRYO && ts[3].procs[1].killed
  {
    var unused := Proc(UNUSED, 0, None, NoChan, false);
    var t0 := Table([Proc(RUNNABLE, 1, None, NoChan, false), unused], [None], 2, 0, map[], {}, []);
    steps := [Schedule(0, 0), Kill(0), Alloc(0, 1)];
    var t1 := Do(t0, steps[0]);
    var t2 := Do(t1, steps[1]);
    assert FirstWith(t1.procs, 0, 0) == 1;
    ts := [t0, t1, t2, Do(t2, steps[2])];
    assert Legal(ts[0], steps[0], ts[1]) && Legal(ts[1], steps[1], ts[2]) && Legal(ts[2], steps[2], ts[3]);
  }

  /** In every run a slot is born killed exactly when a kill has hit it since it was
      last reaped, that is while it was unused or its fork failed. */
  lemma BornKilledExactly(ts: seq<Table>, steps: seq<Step>, k: nat)
    requires IsRun(ts, steps) && k < |steps| && steps[k].Alloc? && steps[k].slot < |ts[0].procs|
    ensures var s := steps[k].slot;
            && |ts[k + 1].procs| == |ts[0].procs| && ts[k + 1].procs[s].state == EMBRYO
            && (ts[k + 1].procs[s].killed <==>
                  exists j :: 0 <= j < k && Hits(ts[j], steps[j], s) && forall i :: j < i < k ==> !Reaps(steps[i], s))
  {
    KilledExactly(ts, steps, k, steps[k].slot);
    assert Legal(ts[k], steps[k], ts[k + 1]);
    hide Hits;
  }

  // --------------------------------------------------------- who is woken

  /** The process that exits in this step wakes whoever sleeps on `chan`: its parent,
      and init if it leaves it a zombie. */
  ghost predicate ExitWakes(t: Table, c: nat, chan: Chan)
    requires c < |t.cpus| && t.cpus[c].Some? && t.cpus[c].value < |t.procs|
  {
    var p := t.cpus[c].value;
    || (t.procs[p].parent.Some? && chan == ProcChan(t.procs[p].parent.value))
    || (chan == ProcChan(t.init) && exists i :: 0 <= i < |t.procs| && t.procs[i].parent == Some(p) && t.procs[i].state == ZOMBIE)
  }

  /** The step wakes the sleeper in slot `s`. */
  ghost predicate Wakes(t: Table, step: Step, s: nat)
    requires Enabled(t, step) && s < |t.procs|
  {
    match step
    case Wakeup(chan) => t.procs[s].chan == chan
    case Kill(_) => Hits(t, step, s)
    case Exit(c) => ExitWakes(t, c, t.procs[s].chan)
    case _ => false
  }

  /** Whoever sleeps goes on sleeping on the same channel until a wakeup of that
      channel, a kill that hits it, or the exit of a child it waits for: and then it is
      runnable. */
  lemma SleeperStep(t: Table, step: Step, s: nat)
    requires Inv(t) && Enabled(t, step) && s < |t.procs| && t.procs[s].state == SLEEPING
    ensures Do(t, step).procs[s].state == (if Wakes(t, step, s) then RUNNABLE else SLEEPING)
    ensures Do(t, step).procs[s].chan == t.procs[s].chan
  {
    hide Accounted, NoMissedExit, Parents, KilledAwake, Exited;
    if step.Exit? {
      ExitedSleeper(t, step.cpu, s);
    } else if step.ForkFails? || step.SetParent? || step.ForkDone? {
      ForkedIsEmbryo(t, step.slot);
    }
  }

  lemma ForkedIsEmbryo(t: Table, s: nat)
    requires Parents(t.procs, t.init, t.forks) && s in t.forks
    ensures s < |t.procs| && t.procs[s].state == EMBRYO
  {
    assert ParentOk(t.procs, t.init, t.forks, s);
  }

  lemma ExitedSleeper(t: Table, c: nat, s: nat)
    requires c < |t.cpus| && t.cpus[c].Some? && t.cpus[c].value < |t.procs|
    requires s < |t.procs| && t.procs[s].state == SLEEPING && t.cpus[c].value != s
    ensures var r := Exited(t.procs, t.cpus[c].value, t.init);
            r[s].state == (if ExitWakes(t, c, t.procs[s].chan) then RUNNABLE else SLEEPING) && r[s].chan == t.procs[s].chan
  {
  }

  /** The process that takes the step, for the steps that a process takes. */
  ghost predicate Takes(t: Table, step: Step, s: nat)
    requires Enabled(t, step)
  {
    (step.Yield? || step.Sleep? || step.Exit? || step.Wait?) && t.cpus[step.cpu] == Some(s)
  }

  /** The life of a slot: which step takes it from which state to which. */
  ghost function NextState(t: Table, step: Step, s: nat): PState
    requires Enabled(t, step) && s < |t.procs|
  {
    var p := t.procs[s];
    if step.Alloc? && step.slot == s then EMBRYO
    else if step.ForkFails? && step.slot == s then UNUSED
    else if step.ForkDone? && step.slot == s then RUNNABLE
    else if step.Schedule? && step.p == s then RUNNING
    else if step.Yield? && Takes(t, step, s) then RUNNABLE
    else if step.Sleep? && Takes(t, step, s) then SLEEPING
    else if step.Wait? && step.scan == Children && Takes(t, step, s) && !p.killed then SLEEPING
    else if step.Wait? && step.scan == Found(s) then UNUSED
    else if step.Exit? && Takes(t, step, s) then ZOMBIE
    else if p.state == SLEEPING && Wakes(t, step, s) then RUNNABLE
    else p.state
  }

  lemma StateExactly(t: Table, step: Step, s: nat)
    requires Inv(t) && Enabled(t, step) && s < |t.procs|
    ensures Do(t, step).procs[s].state == NextState(t, step, s)
  {
    if t.procs[s].state == SLEEPING {
      SleeperStep(t, step, s);
      SleeperTakesNothing(t, step, s);
    } else if step.Exit? {
      ExitedAt(t.procs, t.cpus[step.cpu].value, t.init, s);
      hide Accounted, NoMissedExit, Parents, KilledAwake, Exited;
    } else {
      hide Accounted, NoMissedExit, Parents, KilledAwake, Exited;
    }
  }

  lemma SleeperTakesNothing(t: Table, step: Step, s: nat)
    requires Inv(t) && Enabled(t, step) && s < |t.procs| && t.procs[s].state == SLEEPING
    ensures NextState(t, step, s) == if Wakes(t, step, s) then RUNNABLE else SLEEPING
  {
    hide Accounted, NoMissedExit, KilledAwake, Exited;
    assert ParentOk(t.procs, t.init, t.forks, s);
  }

  /** sleep() and a wait() that finds only living children leave the process asleep and
      its CPU free. */
  lemma FallsAsleep(t: Table, step: Step, c: nat)
    requires Inv(t) && Enabled(t, step)
    requires step == Wait(c, Children) || (step.Sleep? && step.cpu == c)
    ensures c < |t.cpus| && t.cpus[c].Some? && t.cpus[c].value < |t.procs|
    ensures var p, r := t.cpus[c].value, Do(t, step);
            step.Sleep? || !t.procs[p].killed ==>
              && r.procs[p].state == SLEEPING && r.procs[p].chan == (if step.Sleep? then step.chan else ProcChan(p))
              && |r.cpus| == |t.cpus| && r.cpus[c] == None && (forall d :: 0 <= d < |t.cpus| && d != c ==> r.cpus[d] == t.cpus[d])
              && forall i :: 0 <= i < |t.procs| && i != p ==> r.procs[i] == t.procs[i]
  {
  }

  // ------------------------------------------------------ proc.c, in place

  class PTable {
    var procs: seq<Proc>
    var nextpid: nat
    const init: nat

    constructor (procs: seq<Proc>, nextpid: nat, init: nat)
      ensures this.procs == procs && this.nextpid == nextpid && this.init == init
    {
      this.procs, this.nextpid, this.init := procs, nextpid, init;
    }

    method Wakeup1(chan: Chan)
      modifies this`procs
      ensures procs == Woken(old(procs), chan) && |procs| == |old(procs)|
      ensures forall i :: 0 <= i < |procs| ==>
                procs[i] == if old(procs)[i].state == SLEEPING && old(procs)[i].chan == chan
                            then old(procs)[i].(state := RUNNABLE) else old(procs)[i]
    {
      var p := 0;
      while p < |procs|
        invariant 0 <= p <= |procs| == |old(procs)|
        invariant forall i :: 0 <= i < p ==> procs[i] == Woken(old(procs), chan)[i]
        invariant forall i :: p <= i < |procs| ==> procs[i] == old(procs)[i]
      {
        if procs[p].state == SLEEPING && procs[p].chan == chan {
          procs := procs[p := procs[p].(state := RUNNABLE)];
        }
        p := p + 1;
      }
    }

    /** allocproc's scan: the first unused slot becomes an embryo with a new pid. */
    method Allocproc() returns (slot: Option<nat>)
      modifies this
      ensures slot == None ==> procs == old(procs) && nextpid == old(nextpid)
      ensures slot == None ==> forall i :: 0 <= i < |procs| ==> procs[i].state != UNUSED
      ensures slot.Some? ==> slot.value < |old(procs)| && old(procs)[slot.value].state == UNUSED
      ensures slot.Some? ==> forall i :: 0 <= i < slot.value ==> old(procs)[i].state != UNUSED
      ensures slot.Some? ==> nextpid == old(nextpid) + 1
      ensures slot.Some? ==> procs == old(procs)[slot.value := old(procs)[slot.value].(state := EMBRYO, pid := old(nextpid))]
    {
      var p := 0;
      while p < |procs| && procs[p].state != UNUSED
        invariant 0 <= p <= |procs|
        invariant forall i :: 0 <= i < p ==> procs[i].state != UNUSED
      {
        p := p + 1;
      }
      if p == |procs| {
        return None;
      }
      procs := procs[p := procs[p].(state := EMBRYO, pid := nextpid)];
      nextpid := nextpid + 1;
      return Some(p);
    }

    /** exit()'s loop: the children of `cur` go to init, which is woken if one of
        them is a zombie. */
    method PassChildren(cur: nat)
      modifies this`procs
      ensures procs == var a := Adopted(old(procs), cur, init, |old(procs)|);
                       if ZombieChild(old(procs), cur, |old(procs)|) then Woken(a, ProcChan(init)) else a
    {
      ghost var w := procs;
      var p := 0;
      AdoptNone(w, cur, init);
      hide Woken, Adopted;
      while p < |procs|
        invariant 0 <= p <= |procs| == |w|
        invariant procs == if ZombieChild(w, cur, p) then Woken(Adopted(w, cur, init, p), ProcChan(init))
                           else Adopted(w, cur, init, p)
      {
        AdoptNext(w, procs, cur, init, p);
        hide ZombieChild;
        if procs[p].parent == Some(cur) {
          procs := procs[p := procs[p].(parent := Some(init))];
          if procs[p].state == ZOMBIE {
            Wakeup1(ProcChan(init));
          }
        }
        p := p + 1;
      }
    }

    /** The part of exit() under ptable.lock. */
    method Exit(cur: nat)
      requires cur < |procs|
      modifies this`procs
      ensures procs == Exited(old(procs), cur, init)
    {
      ghost var start := procs;
      if procs[cur].parent.Some? {
        Wakeup1(ProcChan(procs[cur].parent.value));
      }
      SameZombies(start, procs, cur);
      hide ZombieChild, Woken, Adopted;
      PassChildren(cur);
      procs := procs[cur := procs[cur].(state := ZOMBIE)];
    }

    /** kill(): `ok` is false where the source returns -1. */
    method Kill(pid: nat) returns (ok: bool)
      modifies this`procs
      ensures procs == Killed(old(procs), pid) && |procs| == |old(procs)|
      ensures forall s :: 0 <= s < |procs| ==> KilledSlot(old(procs), procs, pid, s)
      ensures ok <==> exists i :: 0 <= i < |old(procs)| && old(procs)[i].pid == pid
    {
      var p := 0;
      while p < |procs|
        invariant 0 <= p <= |procs| && procs == old(procs)
        invariant FirstWith(procs, pid, 0) == FirstWith(procs, pid, p)
        invariant forall i :: 0 <= i < p ==> procs[i].pid != pid
      {
        if procs[p].pid == pid {
          procs := procs[p := procs[p].(killed := true)];
          if procs[p].state == SLEEPING {
            procs := procs[p := procs[p].(state := RUNNABLE)];
          }
          return true;
        }
        p := p + 1;
      }
      return false;
    }

    /** wait()'s scan for an exited child. */
    method WaitScan(cur: nat) returns (r: Scan)
      ensures ScanOf(procs, cur, r)
    {
      var havekids := false;
      var p := 0;
      while p < |procs|
        invariant 0 <= p <= |procs|
        invariant forall j :: 0 <= j < p ==> !(procs[j].parent == Some(cur) && procs[j].state == ZOMBIE)
        invariant havekids <==> exists j :: 0 <= j < p && procs[j].parent == Some(cur)
      {
        if procs[p].parent == Some(cur) {
          havekids := true;
          if procs[p].state == ZOMBIE {
            return Found(p);
          }
        }
        p := p + 1;
      }
      return if havekids then Children else Childless;
    }
  }

  lemma AdoptNone(w: seq<Proc>, cur: nat, init: nat)
    ensures Adopted(w, cur, init, 0) == w
  {
  }

  /** One round of exit()'s loop. */
  lemma AdoptNext(w: seq<Proc>, procs: seq<Proc>, cur: nat, init: nat, p: nat)
    requires p < |w|
    requires procs == if ZombieChild(w, cur, p) then Woken(Adopted(w, cur, init, p), ProcChan(init)) else Adopted(w, cur, init, p)
    ensures procs[p].parent == w[p].parent && (procs[p].state == ZOMBIE <==> w[p].state == ZOMBIE)
    ensures w[p].parent != Some(cur) ==>
              procs == if ZombieChild(w, cur, p + 1) then Woken(Adopted(w, cur, init, p + 1), ProcChan(init))
                       else Adopted(w, cur, init, p + 1)
    ensures w[p].parent == Some(cur) ==>
              var q := procs[p := procs[p].(parent := Some(init))];
              if w[p].state == ZOMBIE then
                ZombieChild(w, cur, p + 1) && Woken(q, ProcChan(init)) == Woken(Adopted(w, cur, init, p + 1), ProcChan(init))
              else q == if ZombieChild(w, cur, p + 1) then Woken(Adopted(w, cur, init, p + 1), ProcChan(init))
                        else Adopted(w, cur, init, p + 1)
  {
    assert ZombieChild(w, cur, p + 1) <==> ZombieChild(w, cur, p) || (w[p].parent == Some(cur) && w[p].state == ZOMBIE);
    var q := procs[p := procs[p].(parent := Some(init))];
    var a := Adopted(w, cur, init, p + 1);
    if w[p].parent != Some(cur) {
      assert a == Adopted(w, cur, init, p);
    } else if w[p].state == ZOMBIE {
      assert Woken(q, ProcChan(init)) == Woken(a, ProcChan(init));
    } else if ZombieChild(w, cur, p) {
      assert q == Woken(a, ProcChan(init));
    } else {
      assert q == a;
    }
  }

  lemma SameZombies(start: seq<Proc>, w: seq<Proc>, cur: nat)
    requires |w| == |start|
    requires forall i :: 0 <= i < |w| ==> w[i].parent == start[i].parent && (w[i].state == ZOMBIE <==> start[i].state == ZOMBIE)
    ensures ZombieChild(w, cur, |w|) == ZombieChild(start, cur, |start|)
  {
    if i :| 0 <= i < |w| && w[i].parent == Some(cur) && w[i].state == ZOMBIE {
      assert start[i].parent == Some(cur) && start[i].state == ZOMBIE;
    }
  }
}
