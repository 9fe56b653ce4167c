/** sleep and wakeup (proc.c) for any clients, down to single lock operations: any
    number of processes, spinlocks and channels. Each channel has a spinlock and a
    condition on the data that spinlock protects; a process that sees the condition
    hold may sleep on the channel, and whoever ends it owes the channel a wakeup
    before giving the spinlock up. */
module Sleep {
  import opened Common

  /** Spinlock 0 is ptable.lock. */
  const PT: nat := 0

  /** `lockOf[c]` is the spinlock of channel `c`, and `blocked(c, x)` says that its
      condition holds of the data `x` under that spinlock. */
  datatype World<!D> = World(n: nat, nlocks: nat, lockOf: seq<nat>, blocked: (nat, D) -> bool)

  ghost predicate WorldOk<D>(w: World<D>) {
    w.nlocks >= 1 && forall c :: 0 <= c < |w.lockOf| ==> w.lockOf[c] < w.nlocks
  }

  /** Where a process stands. The comment says what it does next. */
  datatype PC =
    | Running                // its own business
    | WantPt(c: nat)         // sleep: acquire(ptable.lock)
    | HoldsBoth(c: nat)      // sleep: release(lk)
    | Going(c: nat)          // sleep: chan, state = SLEEPING; sched gives up ptable.lock
    | Asleep(c: nat)         // SLEEPING on c
    | Awake(c: nat)          // RUNNABLE: the scheduler runs it, with ptable.lock held
    | Tidying(c: nat)        // sleep: chan = 0; release(ptable.lock), unless it is lk
    | WantLk(c: nat)         // sleep: acquire(lk)
    | WakeWantPt(c: nat)     // wakeup: acquire(ptable.lock)
    | Waking(c: nat, j: nat) // wakeup1: look at slot j; after the last, done

  /** The last test of a channel's condition, still valid under its spinlock. */
  datatype Verdict = Verdict(c: nat, blocked: bool)

  /** `wakeups[c]` counts completed wakeups of `c`; `seen[i]` is that count when
      process `i` last tested the channel it sleeps on; `owes[i]` are the channels
      whose condition process `i` ended and has not woken yet. */
  datatype State<D> = State(
    pcs: seq<PC>,
    tested: seq<Option<Verdict>>,
    seen: seq<nat>,
    owes: seq<set<nat>>,
    locks: seq<Option<nat>>,
    data: seq<D>,
    wakeups: seq<nat>)

  ghost predicate Shape<D>(w: World<D>, s: State<D>) {
    && WorldOk(w)
    && |s.pcs| == |s.tested| == |s.seen| == |s.owes| == w.n
    && |s.locks| == |s.data| == w.nlocks && |s.wakeups| == |w.lockOf|
  }

  predicate Has<D>(s: State<D>, i: nat, l: nat) {
    l < |s.locks| && s.locks[l] == Some(i)
  }

  predicate IsFree<D>(s: State<D>, l: nat) {
    l < |s.locks| && s.locks[l] == None
  }

  function LockOf<D>(w: World<D>, c: nat): nat {
    if c < |w.lockOf| then w.lockOf[c] else w.nlocks
  }

  ghost predicate Blocked<D>(w: World<D>, s: State<D>, c: nat) {
    LockOf(w, c) < |s.data| && w.blocked(c, s.data[LockOf(w, c)])
  }

  // ----------------------------------------------------------------- steps

  datatype Step<D> =
    | Acquire(i: nat, l: nat)
    | Release(i: nat, l: nat)
    | Test(i: nat, c: nat)
    | Modify(i: nat, l: nat, x: D)
    | StartSleep(i: nat, c: nat)
    | StartWakeup(i: nat, c: nat)
    | Go(i: nat)
    | Kill(i: nat)

  /** What callers promise: data is touched, and sleep and wakeup are called, under
      the spinlock; sleep follows a test that found the condition; a spinlock is
      given up with no wakeup owed. Inside sleep and wakeup a process waits only
      for the spinlock it wants. */
  ghost predicate Enabled<D>(w: World<D>, s: State<D>, step: Step<D>) {
    && Shape(w, s) && step.i < w.n
    && match step
       case Acquire(i, l) => s.pcs[i] == Running && IsFree(s, l)
       case Release(i, l) => s.pcs[i] == Running && Has(s, i, l) && forall c :: c in s.owes[i] ==> LockOf(w, c) != l
       case Test(i, c) => s.pcs[i] == Running && c < |w.lockOf| && Has(s, i, LockOf(w, c))
       case Modify(i, l, x) => s.pcs[i] == Running && Has(s, i, l)
       case StartSleep(i, c) =>
         && s.pcs[i] == Running && c < |w.lockOf| && s.tested[i] == Some(Verdict(c, true)) && s.owes[i] == {}
         && forall l :: 0 <= l < |s.locks| && s.locks[l] == Some(i) ==> l == LockOf(w, c)
       case StartWakeup(i, c) => s.pcs[i] == Running && c < |w.lockOf| && Has(s, i, LockOf(w, c))
       case Go(i) =>
         (match s.pcs[i]
          case Running => false
          case Asleep(_) => false
          case WantPt(_) => IsFree(s, PT)
          case Awake(_) => IsFree(s, PT)
          case WakeWantPt(_) => IsFree(s, PT)
          case WantLk(c) => IsFree(s, LockOf(w, c))
          case _ => true)
       case Kill(i) => s.pcs[i].Asleep? && IsFree(s, PT)
  }

  function At<D>(s: State<D>, i: nat, pc: PC): State<D>
    requires i < |s.pcs|
  {
    s.(pcs := s.pcs[i := pc])
  }

  function Lock<D>(s: State<D>, l: nat, who: Option<nat>): State<D> {
    if l < |s.locks| then s.(locks := s.locks[l := who]) else s
  }

  /** A test under spinlock `l` counts no more. */
  function Untested<D>(w: World<D>, s: State<D>, i: nat, l: nat): State<D>
    requires i < |s.tested|
  {
    var t := s.tested[i];
    if t.Some? && LockOf(w, t.value.c) == l then s.(tested := s.tested[i := None]) else s
  }

  /** After a wakeup of channel `c` its own waker would have to test `c` again. */
  function Retest<D>(s: State<D>, i: nat, c: nat): State<D>
    requires i < |s.tested|
  {
    var t := s.tested[i];
    if t.Some? && t.value.c == c then s.(tested := s.tested[i := None]) else s
  }

  /** The channels whose condition ends when the data under `l` becomes `x`. */
  ghost function Ended<D>(w: World<D>, s: State<D>, l: nat, x: D): set<nat> {
    set c | 0 <= c < |w.lockOf| && w.lockOf[c] == l && l < |s.data| && w.blocked(c, s.data[l]) && !w.blocked(c, x)
  }

  ghost function Do<D>(w: World<D>, s: State<D>, step: Step<D>): State<D>
    requires Enabled(w, s, step)
  {
    match step
    case Acquire(i, l) => Lock(s, l, Some(i))
    case Release(i, l) => Lock(Untested(w, s, i, l), l, None)
    case Test(i, c) =>
      s.(tested := s.tested[i := Some(Verdict(c, Blocked(w, s, c)))], seen := s.seen[i := s.wakeups[c]])
    case Modify(i, l, x) =>
      Untested(w, s, i, l).(data := s.data[l := x], owes := s.owes[i := s.owes[i] + Ended(w, s, l, x)])
    case StartSleep(i, c) =>
      At(s, i, if LockOf(w, c) == PT then Going(c) else WantPt(c)).(tested := s.tested[i := None])
    case StartWakeup(i, c) => At(s, i, if LockOf(w, c) == PT then Waking(c, 0) else WakeWantPt(c))
    case Go(i) => Gone(w, s, i)
    case Kill(i) => At(s, i, Awake(s.pcs[i].c))
  }

  /** The next instruction of sleep or wakeup. */
  function Gone<D>(w: World<D>, s: State<D>, i: nat): State<D>
    requires i < |s.pcs| == |s.owes| == |s.tested| == w.n && |s.wakeups| == |w.lockOf|
  {
    match s.pcs[i]
    case WantPt(c) => Lock(At(s, i, HoldsBoth(c)), PT, Some(i))
    case HoldsBoth(c) => Lock(At(s, i, Going(c)), LockOf(w, c), None)
    case Going(c) => Lock(At(s, i, Asleep(c)), PT, None)
    case Awake(c) => Lock(At(s, i, Tidying(c)), PT, Some(i))
    case Tidying(c) => if LockOf(w, c) == PT then At(s, i, Running) else Lock(At(s, i, WantLk(c)), PT, None)
    case WantLk(c) => Lock(At(s, i, Running), LockOf(w, c), Some(i))
    case WakeWantPt(c) => Lock(At(s, i, Waking(c, 0)), PT, Some(i))
    case Waking(c, j) =>
      if j < w.n then
        var v := At(s, i, Waking(c, j + 1));
        if s.pcs[j] == Asleep(c) then At(v, j, Awake(c)) else v
      else
        var v := At(Retest(s, i, c), i, Running).(
          owes := s.owes[i := s.owes[i] - {c}],
          wakeups := if c < |s.wakeups| then s.wakeups[c := s.wakeups[c] + 1] else s.wakeups);
        if LockOf(w, c) == PT then v else Lock(v, PT, None)
    case _ => s
  }

  // ------------------------------------------------------------- invariant

  /** Between testing the condition and being woken. */
  predicate Committed(pc: PC) {
    pc.WantPt? || pc.HoldsBoth? || pc.Going? || pc.Asleep?
  }

  /** The spinlocks a process holds at this point of sleep or wakeup. */
  ghost predicate Holding<D>(w: World<D>, s: State<D>, i: nat) {
    i < |s.pcs| && match s.pcs[i]
    case Running => true
    case WantPt(c) => c < |w.lockOf| && LockOf(w, c) != PT && Has(s, i, LockOf(w, c))
    case HoldsBoth(c) => c < |w.lockOf| && LockOf(w, c) != PT && Has(s, i, LockOf(w, c)) && Has(s, i, PT)
    case Going(c) => c < |w.lockOf| && Has(s, i, PT)
    case Asleep(c) => c < |w.lockOf|
    case Awake(c) => c < |w.lockOf|
    case Tidying(c) => c < |w.lockOf| && Has(s, i, PT)
    case WantLk(c) => c < |w.lockOf|
    case WakeWantPt(c) => c < |w.lockOf| && Has(s, i, LockOf(w, c))
    case Waking(c, _) => c < |w.lockOf| && Has(s, i, LockOf(w, c)) && Has(s, i, PT)
  }

  /** Not inside sleep. */
  predicate Up(pc: PC) {
    pc.Running? || pc.WakeWantPt? || pc.Waking?
  }

  /** A verdict stays true as long as its spinlock is held. */
  ghost predicate Tested<D>(w: World<D>, s: State<D>, i: nat) {
    i < |s.tested| && i < |s.pcs| && i < |s.seen| && (s.tested[i].Some? ==>
      var t := s.tested[i].value;
      && Up(s.pcs[i]) && t.c < |w.lockOf| && t.c < |s.wakeups| && Has(s, i, LockOf(w, t.c))
      && (t.blocked <==> Blocked(w, s, t.c)) && s.seen[i] == s.wakeups[t.c]
      && (OnlyScanning(w, s.pcs[i]) ==> LockOf(w, t.c) != PT))
  }

  /** Holds ptable.lock for the scan of wakeup only. */
  predicate OnlyScanning<D>(w: World<D>, pc: PC) {
    pc.Waking? && LockOf(w, pc.c) != PT
  }

  /** Wakeups are owed only under the spinlock, and not inside sleep. */
  ghost predicate Owing<D>(w: World<D>, s: State<D>, i: nat) {
    && i < |s.owes| && i < |s.pcs|
    && (forall c :: c in s.owes[i] ==> c < |w.lockOf| && Has(s, i, LockOf(w, c)))
    && (!Up(s.pcs[i]) ==> s.owes[i] == {})
    && (OnlyScanning(w, s.pcs[i]) ==> forall c :: c in s.owes[i] ==> LockOf(w, c) != PT)
  }

  /** Someone owes `c` a wakeup that has not passed slot `i`. */
  ghost predicate WakeupComing<D>(w: World<D>, s: State<D>, c: nat, i: nat) {
    LockOf(w, c) < |s.locks| && s.locks[LockOf(w, c)].Some? &&
    var k := s.locks[LockOf(w, c)].value;
    k < |s.owes| && k < |s.pcs| && c in s.owes[k] && (s.pcs[k].Waking? && s.pcs[k].c == c ==> s.pcs[k].j <= i)
  }

  /** A process on its way to sleep, or asleep, has missed no wakeup since it tested
      the condition, and the condition holds or a wakeup is coming. */
  ghost predicate Justified<D>(w: World<D>, s: State<D>, i: nat) {
    i < |s.pcs| && i < |s.seen| && (Committed(s.pcs[i]) ==>
      var c := s.pcs[i].c;
      && c < |s.wakeups| && s.seen[i] == s.wakeups[c]
      && (Blocked(w, s, c) || ((s.pcs[i].Going? || s.pcs[i].Asleep?) && WakeupComing(w, s, c, i))))
  }

  /** Nobody the scan has passed is asleep on its channel. */
  ghost predicate Scanned<D>(s: State<D>, i: nat) {
    i < |s.pcs| && (s.pcs[i].Waking? ==>
      forall k :: 0 <= k < s.pcs[i].j && k < |s.pcs| ==> s.pcs[k] != Asleep(s.pcs[i].c))
  }

  ghost predicate ProcOk<D>(w: World<D>, s: State<D>, i: nat) {
    Holding(w, s, i) && Tested(w, s, i) && Owing(w, s, i) && Justified(w, s, i) && Scanned(s, i)
  }

  ghost predicate Inv<D>(w: World<D>, s: State<D>) {
    Shape(w, s) && forall i :: 0 <= i < w.n ==> ProcOk(w, s, i)
  }

  // ------------------------------------------------------------ every step

  lemma Whole<D>(w: World<D>, s: State<D>)
    requires Shape(w, s) && forall i :: 0 <= i < w.n ==> ProcOk(w, s, i)
    ensures Inv(w, s)
  {
  }

  lemma AcquireKeeps<D>(w: World<D>, s: State<D>, i: nat, l: nat)
    requires Inv(w, s) && Enabled(w, s, Acquire(i, l))
    ensures Inv(w, Do(w, s, Acquire(i, l)))
  {
    var r := Do(w, s, Acquire(i, l));
    forall k | 0 <= k < w.n
      ensures ProcOk(w, r, k)
    {
      assert ProcOk(w, s, k) && ProcOk(w, s, i);
    }
  }

  lemma ReleaseCalm<D>(w: World<D>, s: State<D>, i: nat, l: nat, k: nat)
    requires Shape(w, s) && ProcOk(w, s, i) && ProcOk(w, s, k) && Enabled(w, s, Release(i, l))
    ensures var r := Do(w, s, Release(i, l)); Holding(w, r, k) && Tested(w, r, k) && Owing(w, r, k) && Scanned(r, k)
  {
    hide Justified;
  }

  lemma ReleaseJustified<D>(w: World<D>, s: State<D>, i: nat, l: nat, k: nat)
    requires Shape(w, s) && ProcOk(w, s, i) && ProcOk(w, s, k) && Enabled(w, s, Release(i, l))
    ensures Justified(w, Do(w, s, Release(i, l)), k)
  {
  }

  lemma ReleaseKeeps<D>(w: World<D>, s: State<D>, i: nat, l: nat)
    requires Inv(w, s) && Enabled(w, s, Release(i, l))
    ensures Inv(w, Do(w, s, Release(i, l)))
  {
    var r := Do(w, s, Release(i, l));
    assert Shape(w, r);
    hide Shape, Do, Holding, Tested, Owing, Justified, Scanned;
    forall k | 0 <= k < w.n
      ensures ProcOk(w, r, k)
    {
      assert ProcOk(w, s, k) && ProcOk(w, s, i);
      ReleaseCalm(w, s, i, l, k);
      ReleaseJustified(w, s, i, l, k);
    }
    Whole(w, r);
  }

  lemma TestKeeps<D>(w: World<D>, s: State<D>, i: nat, c: nat)
    requires Inv(w, s) && Enabled(w, s, Test(i, c))
    ensures Inv(w, Do(w, s, Test(i, c)))
  {
    var r := Do(w, s, Test(i, c));
    forall k | 0 <= k < w.n
      ensures ProcOk(w, r, k)
    {
      assert ProcOk(w, s, k) && ProcOk(w, s, i);
    }
  }

  lemma ModifyCalm<D>(w: World<D>, s: State<D>, i: nat, l: nat, x: D, k: nat)
    requires Shape(w, s) && ProcOk(w, s, i) && ProcOk(w, s, k) && Enabled(w, s, Modify(i, l, x))
    ensures var r := Do(w, s, Modify(i, l, x)); Holding(w, r, k) && Tested(w, r, k) && Owing(w, r, k) && Scanned(r, k)
  {
    hide Justified;
  }

  lemma ModifyJustified<D>(w: World<D>, s: State<D>, i: nat, l: nat, x: D, k: nat)
    requires Shape(w, s) && ProcOk(w, s, i) && ProcOk(w, s, k) && Enabled(w, s, Modify(i, l, x))
    ensures Justified(w, Do(w, s, Modify(i, l, x)), k)
  {
  }

  lemma ModifyKeeps<D>(w: World<D>, s: State<D>, i: nat, l: nat, x: D)
    requires Inv(w, s) && Enabled(w, s, Modify(i, l, x))
    ensures Inv(w, Do(w, s, Modify(i, l, x)))
  {
    var r := Do(w, s, Modify(i, l, x));
    assert Shape(w, r);
    hide Shape, Do, Holding, Tested, Owing, Justified, Scanned;
    forall k | 0 <= k < w.n
      ensures ProcOk(w, r, k)
    {
      assert ProcOk(w, s, k) && ProcOk(w, s, i);
      ModifyCalm(w, s, i, l, x, k);
      ModifyJustified(w, s, i, l, x, k);
    }
    Whole(w, r);
  }

  lemma StartSleepKeeps<D>(w: World<D>, s: State<D>, i: nat, c: nat)
    requires Inv(w, s) && Enabled(w, s, StartSleep(i, c))
    ensures Inv(w, Do(w, s, StartSleep(i, c)))
  {
    var r := Do(w, s, StartSleep(i, c));
    forall k | 0 <= k < w.n
      ensures ProcOk(w, r, k)
    {
      assert ProcOk(w, s, k) && ProcOk(w, s, i);
    }
  }

  lemma StartWakeupKeeps<D>(w: World<D>, s: State<D>, i: nat, c: nat)
    requires Inv(w, s) && Enabled(w, s, StartWakeup(i, c))
    ensures Inv(w, Do(w, s, StartWakeup(i, c)))
  {
    var r := Do(w, s, StartWakeup(i, c));
    forall k | 0 <= k < w.n
      ensures ProcOk(w, r, k)
    {
      assert ProcOk(w, s, k) && ProcOk(w, s, i);
    }
  }

  lemma KillKeeps<D>(w: World<D>, s: State<D>, i: nat)
    requires Inv(w, s) && Enabled(w, s, Kill(i))
    ensures Inv(w, Do(w, s, Kill(i)))
  {
    var r := Do(w, s, Kill(i));
    forall k | 0 <= k < w.n
      ensures ProcOk(w, r, k)
    {
      assert ProcOk(w, s, k) && ProcOk(w, s, i);
    }
  }

  lemma WantPtKeeps<D>(w: World<D>, s: State<D>, i: nat)
    requires Inv(w, s) && Enabled(w, s, Go(i)) && s.pcs[i].WantPt?
    ensures Inv(w, Gone(w, s, i))
  {
    var r := Gone(w, s, i);
    forall k | 0 <= k < w.n
      ensures ProcOk(w, r, k)
    {
      assert ProcOk(w, s, k) && ProcOk(w, s, i);
    }
  }

  lemma HoldsBothKeeps<D>(w: World<D>, s: State<D>, i: nat)
    requires Inv(w, s) && Enabled(w, s, Go(i)) && s.pcs[i].HoldsBoth?
    ensures Inv(w, Gone(w, s, i))
  {
    var r := Gone(w, s, i);
    forall k | 0 <= k < w.n
      ensures ProcOk(w, r, k)
    {
      assert ProcOk(w, s, k) && ProcOk(w, s, i);
    }
  }

  lemma GoingKeeps<D>(w: World<D>, s: State<D>, i: nat)
    requires Inv(w, s) && Enabled(w, s, Go(i)) && s.pcs[i].Going?
    ensures Inv(w, Gone(w, s, i))
  {
    var r := Gone(w, s, i);
    forall k | 0 <= k < w.n
      ensures ProcOk(w, r, k)
    {
      assert ProcOk(w, s, k) && ProcOk(w, s, i);
    }
  }

  lemma AwakeKeeps<D>(w: World<D>, s: State<D>, i: nat)
    requires Inv(w, s) && Enabled(w, s, Go(i)) && s.pcs[i].Awake?
    ensures Inv(w, Gone(w, s, i))
  {
    var r := Gone(w, s, i);
    forall k | 0 <= k < w.n
      ensures ProcOk(w, r, k)
    {
      assert ProcOk(w, s, k) && ProcOk(w, s, i);
    }
  }

  lemma TidyingKeeps<D>(w: World<D>, s: State<D>, i: nat)
    requires Inv(w, s) && Enabled(w, s, Go(i)) && s.pcs[i].Tidying?
    ensures Inv(w, Gone(w, s, i))
  {
    var r := Gone(w, s, i);
    assert Shape(w, r);
    hide Shape, Gone, Holding, Tested, Owing, Justified, Scanned;
    forall k | 0 <= k < w.n
      ensures ProcOk(w, r, k)
    {
      assert ProcOk(w, s, k) && ProcOk(w, s, i);
      TidyingCalm(w, s, i, k);
      TidyingJustified(w, s, i, k);
    }
    Whole(w, r);
  }

  lemma TidyingCalm<D>(w: World<D>, s: State<D>, i: nat, k: nat)
    requires Shape(w, s) && ProcOk(w, s, i) && ProcOk(w, s, k) && Enabled(w, s, Go(i)) && s.pcs[i].Tidying?
    ensures var r := Gone(w, s, i); Holding(w, r, k) && Tested(w, r, k) && Owing(w, r, k) && Scanned(r, k)
  {
    hide Justified;
  }

  lemma TidyingJustified<D>(w: World<D>, s: State<D>, i: nat, k: nat)
    requires Shape(w, s) && ProcOk(w, s, i) && ProcOk(w, s, k) && Enabled(w, s, Go(i)) && s.pcs[i].Tidying?
    ensures Justified(w, Gone(w, s, i), k)
  {
    hide Tested, Scanned;
  }

  lemma WantLkKeeps<D>(w: World<D>, s: State<D>, i: nat)
    requires Inv(w, s) && Enabled(w, s, Go(i)) && s.pcs[i].WantLk?
    ensures Inv(w, Gone(w, s, i))
  {
    var r := Gone(w, s, i);
    forall k | 0 <= k < w.n
      ensures ProcOk(w, r, k)
    {
      assert ProcOk(w, s, k) && ProcOk(w, s, i);
    }
  }

  lemma WakeWantPtKeeps<D>(w: World<D>, s: State<D>, i: nat)
    requires Inv(w, s) && Enabled(w, s, Go(i)) && s.pcs[i].WakeWantPt?
    ensures Inv(w, Gone(w, s, i))
  {
    var r := Gone(w, s, i);
    forall k | 0 <= k < w.n
      ensures ProcOk(w, r, k)
    {
      assert ProcOk(w, s, k) && ProcOk(w, s, i);
    }
  }

  lemma ScanHolding<D>(w: World<D>, s: State<D>, i: nat, k: nat)
    requires Shape(w, s) && ProcOk(w, s, i) && ProcOk(w, s, k) && s.pcs[i].Waking? && s.pcs[i].j < w.n
    ensures var r := Gone(w, s, i); Holding(w, r, k) && Scanned(r, k)
  {
    hide Justified, Tested, Owing;
  }

  lemma ScanCalm<D>(w: World<D>, s: State<D>, i: nat, k: nat)
    requires Shape(w, s) && ProcOk(w, s, i) && ProcOk(w, s, k) && s.pcs[i].Waking? && s.pcs[i].j < w.n
    ensures var r := Gone(w, s, i); Tested(w, r, k) && Owing(w, r, k)
  {
    hide Justified, Scanned;
  }

  /** wakeup1 looks at one slot. */
  lemma ScanJustified<D>(w: World<D>, s: State<D>, i: nat, k: nat)
    requires Shape(w, s) && ProcOk(w, s, i) && ProcOk(w, s, k) && s.pcs[i].Waking? && s.pcs[i].j < w.n
    ensures Justified(w, Gone(w, s, i), k)
  {
    hide Tested;
  }

  lemma ScanKeeps<D>(w: World<D>, s: State<D>, i: nat)
    requires Inv(w, s) && Enabled(w, s, Go(i)) && s.pcs[i].Waking? && s.pcs[i].j < w.n
    ensures Inv(w, Gone(w, s, i))
  {
    var r := Gone(w, s, i);
    assert Shape(w, r);
    hide Shape, Gone, Holding, Tested, Owing, Justified, Scanned;
    forall k | 0 <= k < w.n
      ensures ProcOk(w, r, k)
    {
      assert ProcOk(w, s, k) && ProcOk(w, s, i);
      ScanHolding(w, s, i, k);
      ScanCalm(w, s, i, k);
      ScanJustified(w, s, i, k);
    }
    Whole(w, r);
  }

  lemma WokenHolding<D>(w: World<D>, s: State<D>, i: nat, k: nat)
    requires Shape(w, s) && ProcOk(w, s, i) && ProcOk(w, s, k) && s.pcs[i].Waking? && s.pcs[i].j >= w.n
    ensures var r := Gone(w, s, i); Holding(w, r, k) && Scanned(r, k)
  {
    hide Justified, Tested, Owing;
  }

  lemma WokenOwing<D>(w: World<D>, s: State<D>, i: nat, k: nat)
    requires Shape(w, s) && ProcOk(w, s, i) && ProcOk(w, s, k) && s.pcs[i].Waking? && s.pcs[i].j >= w.n
    ensures Owing(w, Gone(w, s, i), k)
  {
    hide Justified, Scanned, Tested;
  }

  lemma WokenTested<D>(w: World<D>, s: State<D>, i: nat, k: nat)
    requires Shape(w, s) && ProcOk(w, s, i) && ProcOk(w, s, k) && s.pcs[i].Waking? && s.pcs[i].j >= w.n
    ensures Tested(w, Gone(w, s, i), k)
  {
    hide Justified, Scanned, Owing;
  }

  /** A wakeup completes: everyone asleep on the channel has been woken, and the
      others on their way to sleep would need a spinlock the waker holds. */
  lemma WokenJustified<D>(w: World<D>, s: State<D>, i: nat, k: nat)
    requires Shape(w, s) && ProcOk(w, s, i) && ProcOk(w, s, k) && s.pcs[i].Waking? && s.pcs[i].j >= w.n
    ensures Justified(w, Gone(w, s, i), k)
  {
    hide Tested;
  }

  lemma WokenKeeps<D>(w: World<D>, s: State<D>, i: nat)
    requires Inv(w, s) && Enabled(w, s, Go(i)) && s.pcs[i].Waking? && s.pcs[i].j >= w.n
    ensures Inv(w, Gone(w, s, i))
  {
    var r := Gone(w, s, i);
    assert Shape(w, r);
    hide Shape, Gone, Holding, Tested, Owing, Justified, Scanned;
    forall k | 0 <= k < w.n
      ensures ProcOk(w, r, k)
    {
      assert ProcOk(w, s, k) && ProcOk(w, s, i);
      WokenHolding(w, s, i, k);
      WokenOwing(w, s, i, k);
      WokenTested(w, s, i, k);
      WokenJustified(w, s, i, k);
    }
    Whole(w, r);
  }

  lemma GoKeeps<D>(w: World<D>, s: State<D>, i: nat)
    requires Inv(w, s) && Enabled(w, s, Go(i))
    ensures Inv(w, Gone(w, s, i))
  {
    hide Inv, Gone;
    match s.pcs[i]
    case WantPt(_) => WantPtKeeps(w, s, i);
    case HoldsBoth(_) => HoldsBothKeeps(w, s, i);
    case Going(_) => GoingKeeps(w, s, i);
    case Awake(_) => AwakeKeeps(w, s, i);
    case Tidying(_) => TidyingKeeps(w, s, i);
    case WantLk(_) => WantLkKeeps(w, s, i);
    case WakeWantPt(_) => WakeWantPtKeeps(w, s, i);
    case Waking(_, j) => if j < w.n { ScanKeeps(w, s, i); } else { WokenKeeps(w, s, i); }
  }

  lemma StepKeepsInv<D>(w: World<D>, s: State<D>, step: Step<D>)
    requires Inv(w, s) && Enabled(w, s, step)
    ensures Inv(w, Do(w, s, step))
  {
    hide Inv, Gone;
    match step
    case Acquire(i, l) => AcquireKeeps(w, s, i, l);
    case Release(i, l) => ReleaseKeeps(w, s, i, l);
    case Test(i, c) => TestKeeps(w, s, i, c);
    case Modify(i, l, x) => ModifyKeeps(w, s, i, l, x);
    case StartSleep(i, c) => StartSleepKeeps(w, s, i, c);
    case StartWakeup(i, c) => StartWakeupKeeps(w, s, i, c);
    case Go(i) => GoKeeps(w, s, i);
    case Kill(i) => KillKeeps(w, s, i);
  }

  // ------------------------------------------------------------------ runs

  ghost predicate Initial<D>(w: World<D>, s: State<D>) {
    && Shape(w, s)
    && (forall i :: 0 <= i < w.n ==> s.pcs[i] == Running && s.tested[i] == None && s.owes[i] == {})
    && forall l :: 0 <= l < w.nlocks ==> s.locks[l] == None
  }

  ghost predicate Legal<D>(w: World<D>, s: State<D>, step: Step<D>, r: State<D>) {
    Enabled(w, s, step) && r == Do(w, s, step)
  }

  ghost predicate IsRun<D>(w: World<D>, ss: seq<State<D>>, steps: seq<Step<D>>) {
    && |ss| == |steps| + 1 && Initial(w, ss[0])
    && forall k :: 0 <= k < |steps| ==> Legal(w, ss[k], steps[k], ss[k + 1])
  }

  lemma {:induction false} RunsKeepInv<D>(w: World<D>, ss: seq<State<D>>, steps: seq<Step<D>>, k: nat)
    requires IsRun(w, ss, steps) && k < |ss|
    ensures Inv(w, ss[k])
  {
    if k > 0 {
      RunsKeepInv(w, ss, steps, k - 1);
      hide Inv;
      assert Legal(w, ss[k - 1], steps[k - 1], ss[k - 1 + 1]);
      StepKeepsInv(w, ss[k - 1], steps[k - 1]);
    }
  }

  /** In every run, whoever is asleep on a channel was put there with no wakeup of
      that channel completed since it tested the condition. */
  lemma NoWakeupMissed<D>(w: World<D>, ss: seq<State<D>>, steps: seq<Step<D>>, k: nat, i: nat)
    requires IsRun(w, ss, steps) && k < |ss| && i < |ss[k].pcs| && ss[k].pcs[i].Asleep?
    ensures ss[k].pcs[i].c < |ss[k].wakeups| && i < |ss[k].seen| && ss[k].seen[i] == ss[k].wakeups[ss[k].pcs[i].c]
  {
    RunsKeepInv(w, ss, steps, k);
    assert ProcOk(w, ss[k], i);
  }

  /** In every run, while the channel's spinlock is free, its sleepers' condition
      holds: nobody is left asleep on a condition that has ended. */
  lemma NoSleeperLeft<D>(w: World<D>, ss: seq<State<D>>, steps: seq<Step<D>>, k: nat, i: nat)
    requires IsRun(w, ss, steps) && k < |ss| && i < |ss[k].pcs| && ss[k].pcs[i].Asleep?
    requires IsFree(ss[k], LockOf(w, ss[k].pcs[i].c))
    ensures Blocked(w, ss[k], ss[k].pcs[i].c)
  {
    RunsKeepInv(w, ss, steps, k);
    assert ProcOk(w, ss[k], i);
  }

  // --------------------------------------- the spinlocks sleep returns with

  /** Process `i` holds the spinlocks in `ls` and no others. */
  ghost predicate HoldsOnly<D>(s: State<D>, i: nat, ls: set<nat>) {
    forall l :: 0 <= l < |s.locks| ==> (s.locks[l] == Some(i) <==> l in ls)
  }

  /** Inside sleep on channel `c`. */
  predicate InSleep(pc: PC, c: nat) {
    (Committed(pc) || pc.Awake? || pc.Tidying? || pc.WantLk?) && pc.c == c
  }

  /** What a process inside sleep holds at each point. */
  ghost predicate SleepLocks<D>(w: World<D>, s: State<D>, i: nat) {
    i < |s.pcs| && match s.pcs[i]
    case WantPt(c) => HoldsOnly(s, i, {LockOf(w, c)})
    case HoldsBoth(c) => HoldsOnly(s, i, {LockOf(w, c), PT})
    case Going(c) => HoldsOnly(s, i, {PT})
    case Tidying(c) => HoldsOnly(s, i, {PT})
    case Asleep(c) => HoldsOnly(s, i, {})
    case Awake(c) => HoldsOnly(s, i, {})
    case WantLk(c) => HoldsOnly(s, i, {})
    case _ => true
  }

  /** Process `k` holds what it held, and is where it was or has been woken. */
  ghost predicate Undisturbed<D>(s: State<D>, r: State<D>, k: nat) {
    && |r.locks| == |s.locks| && (forall l :: 0 <= l < |s.locks| ==> (r.locks[l] == Some(k) <==> s.locks[l] == Some(k)))
    && k < |s.pcs| == |r.pcs| && (r.pcs[k] == s.pcs[k] || (s.pcs[k].Asleep? && r.pcs[k] == Awake(s.pcs[k].c)))
  }

  lemma OthersUndisturbedByGo<D>(w: World<D>, s: State<D>, i: nat, k: nat)
    requires Shape(w, s) && Holding(w, s, i) && Enabled(w, s, Go(i)) && k < w.n && k != i
    ensures Undisturbed(s, Gone(w, s, i), k)
  {
  }

  /** A step changes the spinlocks of the process that takes it only. */
  lemma OthersLocks<D>(w: World<D>, s: State<D>, step: Step<D>, k: nat)
    requires Inv(w, s) && Enabled(w, s, step) && k < w.n && (k != step.i || step.Kill?)
    ensures Undisturbed(s, Do(w, s, step), k)
  {
    assert ProcOk(w, s, step.i);
    hide Tested, Owing, Justified, Scanned, Gone;
    if step.Go? {
      OthersUndisturbedByGo(w, s, step.i, k);
    }
  }

  lemma OthersSleepLocks<D>(w: World<D>, s: State<D>, step: Step<D>, k: nat)
    requires Inv(w, s) && Enabled(w, s, step) && k < w.n && (k != step.i || step.Kill?) && SleepLocks(w, s, k)
    ensures SleepLocks(w, Do(w, s, step), k)
  {
    OthersLocks(w, s, step, k);
    hide Inv, Enabled, Do;
  }

  /** Calling sleep: only the channel's spinlock is held. */
  lemma SleepLocksStart<D>(w: World<D>, s: State<D>, i: nat, c: nat)
    requires Inv(w, s) && Enabled(w, s, StartSleep(i, c))
    ensures HoldsOnly(s, i, {LockOf(w, c)})
    ensures var r := Do(w, s, StartSleep(i, c)); i < |r.pcs| && SleepLocks(w, r, i) && InSleep(r.pcs[i], c)
  {
    assert ProcOk(w, s, i);
    hide Owing, Justified, Scanned;
  }

  /** One step inside sleep, up to its return. */
  lemma SleepLocksGo<D>(w: World<D>, s: State<D>, i: nat, c: nat)
    requires Inv(w, s) && Enabled(w, s, Go(i)) && SleepLocks(w, s, i) && InSleep(s.pcs[i], c)
    ensures var r := Do(w, s, Go(i));
            && i < |r.pcs| && SleepLocks(w, r, i)
            && (InSleep(r.pcs[i], c) || (r.pcs[i] == Running && HoldsOnly(r, i, {LockOf(w, c)})))
  {
    assert ProcOk(w, s, i);
    hide Tested, Owing, Justified, Scanned;
  }

  lemma SleepLocksStep<D>(w: World<D>, s: State<D>, step: Step<D>, k: nat)
    requires Inv(w, s) && Enabled(w, s, step) && k < w.n && SleepLocks(w, s, k)
    ensures SleepLocks(w, Do(w, s, step), k)
  {
    hide Inv, Do, SleepLocks;
    if k != step.i || step.Kill? {
      OthersSleepLocks(w, s, step, k);
    } else if step.StartSleep? {
      SleepLocksStart(w, s, k, step.c);
    } else if step.Go? && (Committed(s.pcs[k]) || s.pcs[k].Awake? || s.pcs[k].Tidying? || s.pcs[k].WantLk?) {
      SleepLocksGo(w, s, k, s.pcs[k].c);
    } else {
      OutsideSleep(w, s, step);
    }
  }

  /** Any other step leaves its process outside sleep. */
  lemma OutsideSleep<D>(w: World<D>, s: State<D>, step: Step<D>)
    requires Inv(w, s) && Enabled(w, s, step) && !step.StartSleep? && !step.Kill?
    requires step.Go? ==> s.pcs[step.i].WakeWantPt? || s.pcs[step.i].Waking?
    ensures SleepLocks(w, Do(w, s, step), step.i)
  {
  }

  lemma {:induction false} RunsKeepSleepLocks<D>(w: World<D>, ss: seq<State<D>>, steps: seq<Step<D>>, k: nat, i: nat)
    requires IsRun(w, ss, steps) && k < |ss| && i < w.n
    ensures SleepLocks(w, ss[k], i)
  {
    hide Inv, Do, Enabled, SleepLocks;
    if k == 0 {
      NobodySleeps(w, ss[0], i);
    } else {
      RunsKeepSleepLocks(w, ss, steps, k - 1, i);
      RunsKeepInv(w, ss, steps, k - 1);
      assert Legal(w, ss[k - 1], steps[k - 1], ss[k - 1 + 1]);
      SleepLocksStep(w, ss[k - 1], steps[k - 1], i);
    }
  }

  lemma NobodySleeps<D>(w: World<D>, s: State<D>, i: nat)
    requires Initial(w, s) && i < w.n
    ensures SleepLocks(w, s, i)
  {
  }

  /** Process `i`, which called sleep on `c` in step `j`, has not returned up to state `k`. */
  ghost predicate StillIn<D>(ss: seq<State<D>>, j: nat, k: nat, i: nat) {
    forall m :: j < m < k && m < |ss| ==> i < |ss[m].pcs| && ss[m].pcs[i] != Running
  }

  lemma {:induction false} SleepsOn<D>(w: World<D>, ss: seq<State<D>>, steps: seq<Step<D>>, j: nat, k: nat, i: nat, c: nat)
    requires IsRun(w, ss, steps) && j < k < |ss| && steps[j] == StartSleep(i, c) && StillIn(ss, j, k, i)
    ensures i < w.n && i < |ss[k].pcs|
    ensures InSleep(ss[k].pcs[i], c) || (ss[k].pcs[i] == Running && HoldsOnly(ss[k], i, {LockOf(w, c)}))
    decreases k
  {
    hide Inv, Do, SleepLocks;
    var s, step := ss[k - 1], steps[k - 1];
    assert Legal(w, s, step, ss[k - 1 + 1]);
    assert Legal(w, ss[j], steps[j], ss[j + 1]);
    RunsKeepInv(w, ss, steps, k - 1);
    if k - 1 == j {
      SleepLocksStart(w, s, i, c);
    } else {
      SleepsOn(w, ss, steps, j, k - 1, i, c);
      RunsKeepSleepLocks(w, ss, steps, k - 1, i);
      if step.i == i && !step.Kill? {
        SleepLocksGo(w, s, i, c);
      } else {
        OthersLocks(w, s, step, i);
      }
    }
  }

  /** sleep returns with the spinlocks it was called with: in every run, a process that
      calls sleep on a channel holds that channel's spinlock and no other, and the next
      time it runs it holds that one again and no other. */
  lemma SleepReturnsLocks<D>(w: World<D>, ss: seq<State<D>>, steps: seq<Step<D>>, j: nat, k: nat, i: nat, c: nat)
    requires IsRun(w, ss, steps) && j < k < |ss| && steps[j] == StartSleep(i, c) && StillIn(ss, j, k, i)
    requires i < |ss[k].pcs| && ss[k].pcs[i] == Running
    ensures HoldsOnly(ss[j], i, {LockOf(w, c)}) && HoldsOnly(ss[k], i, {LockOf(w, c)})
  {
    SleepsOn(w, ss, steps, j, k, i, c);
    RunsKeepInv(w, ss, steps, j);
    assert Legal(w, ss[j], steps[j], ss[j + 1]);
    hide Inv, Do, Enabled, HoldsOnly;
    SleepLocksStart(w, ss[j], i, c);
  }

  // --------------------------------------------- what wakeup returns with

  ghost function Held<D>(s: State<D>, i: nat): set<nat> {
    set l | 0 <= l < |s.locks| && s.locks[l] == Some(i)
  }

  /** A wakeup of `c` by a process that held `held` when it called: what it holds on the
      way, and once it is done. */
  ghost predicate WakeupAt<D>(w: World<D>, s: State<D>, i: nat, c: nat, held: set<nat>) {
    i < |s.pcs| && match s.pcs[i]
    case WakeWantPt(d) => d == c && Held(s, i) == held
    case Waking(d, _) => d == c && Held(s, i) == held + {PT} && (LockOf(w, c) == PT <==> PT in held)
    case Running => Held(s, i) == held && forall k :: 0 <= k < |s.pcs| ==> s.pcs[k] != Asleep(c)
    case _ => false
  }

  lemma WakeupStarts<D>(w: World<D>, s: State<D>, i: nat, c: nat)
    requires Inv(w, s) && Enabled(w, s, StartWakeup(i, c))
    ensures WakeupAt(w, Do(w, s, StartWakeup(i, c)), i, c, Held(s, i))
  {
    hide Inv;
    assert Do(w, s, StartWakeup(i, c)).locks == s.locks;
  }

  lemma WakeupGoes<D>(w: World<D>, s: State<D>, i: nat, c: nat, held: set<nat>)
    requires Inv(w, s) && Enabled(w, s, Go(i)) && WakeupAt(w, s, i, c, held)
    ensures WakeupAt(w, Do(w, s, Go(i)), i, c, held)
  {
    assert ProcOk(w, s, i);
    hide Tested, Owing, Justified;
    var r := Do(w, s, Go(i));
    if s.pcs[i].WakeWantPt? {
      assert PT !in held by {
        assert s.locks[PT] == None;
      }
      assert Held(r, i) == held + {PT};
    } else if s.pcs[i].j < w.n {
      assert Held(r, i) == Held(s, i);
    } else {
      assert Held(r, i) == held;
    }
  }

  lemma {:induction false} WakesOn<D>(w: World<D>, ss: seq<State<D>>, steps: seq<Step<D>>, j: nat, k: nat, i: nat, c: nat)
    requires IsRun(w, ss, steps) && j < k < |ss| && steps[j] == StartWakeup(i, c) && StillIn(ss, j, k, i)
    ensures WakeupAt(w, ss[k], i, c, Held(ss[j], i))
    decreases k
  {
    hide Inv, Do, Enabled;
    var s, step := ss[k - 1], steps[k - 1];
    assert Legal(w, s, step, ss[k - 1 + 1]);
    RunsKeepInv(w, ss, steps, k - 1);
    if k - 1 == j {
      WakeupStarts(w, s, i, c);
    } else {
      WakesOn(w, ss, steps, j, k - 1, i, c);
      IsBusy(w, s, step, i);
      if step.i == i {
        WakeupGoes(w, s, i, c, Held(ss[j], i));
      } else {
        OthersLocks(w, s, step, i);
        assert Held(ss[k], i) == Held(s, i);
      }
    }
  }

  lemma IsBusy<D>(w: World<D>, s: State<D>, step: Step<D>, i: nat)
    requires Enabled(w, s, step) && i < |s.pcs| && (s.pcs[i].WakeWantPt? || s.pcs[i].Waking?)
    ensures i < w.n && (step.i == i ==> step == Go(i))
  {
  }

  /** wakeup returns with the spinlocks it was called with, and at that moment nobody
      sleeps on the channel: in every run. */
  lemma WakeupReturns<D>(w: World<D>, ss: seq<State<D>>, steps: seq<Step<D>>, j: nat, k: nat, i: nat, c: nat)
    requires IsRun(w, ss, steps) && j < k < |ss| && steps[j] == StartWakeup(i, c) && StillIn(ss, j, k, i)
    requires i < |ss[k].pcs| && ss[k].pcs[i] == Running
    ensures Held(ss[k], i) == Held(ss[j], i) && forall p :: 0 <= p < |ss[k].pcs| ==> ss[k].pcs[p] != Asleep(c)
  {
    WakesOn(w, ss, steps, j, k, i, c);
  }
}
