/** begin_op / log_write / end_op of log.c as a machine whose steps are the
    critical sections of log.lock, and the tests log_write makes before it takes
    the lock, by any number of operations in any order. `cap` is how many distinct
    blocks one operation may log, `size` is log.size (sb.nlog). */
module LogOps {
  import opened Common
  import opened Blocks
  import Log

  const MAXOPBLOCKS: nat := 10
  const LOGSIZE: nat := Log.LOGSIZE
  /** mkfs builds the file system with nlog = LOGSIZE. */
  const NLOG: nat := LOGSIZE

  type Op = nat

  datatype Phase = Idle | Writing | Flushed

  /** A committed transaction: which operations it holds and what they logged. */
  datatype Txn = Txn(ops: map<Op, set<nat>>, blocks: seq<nat>)

  /** `active` is the outstanding operations, with the distinct blocks each has
      logged so far; `ended` those that finished in the open transaction; `passed`
      the block each operation inside log_write has passed the tests for.
      `phase != Idle` is log.committing. `blocks` is lh.block[..lh.n]. */
  datatype State = State(
    blocks: seq<nat>,
    active: map<Op, set<nat>>,
    passed: map<Op, nat>,
    ended: map<Op, set<nat>>,
    phase: Phase,
    asleep: set<Op>,
    history: seq<Txn>)

  datatype Step = Begin(o: Op) | Test(o: Op, b: nat) | Write(o: Op, b: nat) | End(o: Op) | Flush | FinishCommit

  datatype Outcome = Next(s: State) | TooBigPanic | OutsidePanic | CommittingPanic

  function Init(): State {
    State([], map[], map[], map[], Idle, {}, [])
  }

  ghost predicate Seen(s: State, o: Op) {
    o in s.active || o in s.ended || exists t :: 0 <= t < |s.history| && o in s.history[t].ops
  }

  /** What the callers promise: an operation is bracketed by one begin_op and one
      end_op, and logs at most `cap` distinct blocks in between. */
  ghost predicate Enabled(s: State, step: Step, cap: nat) {
    match step
    case Begin(o) => !Seen(s, o) && o !in s.asleep
    case Test(o, b) => o in s.active && o !in s.passed && |s.active[o] + {b}| <= cap
    case Write(o, b) => o in s.passed && s.passed[o] == b
    case End(o) => o in s.active && o !in s.passed
    case Flush => s.phase == Writing
    case FinishCommit => s.phase == Flushed
  }

  predicate MustWait(s: State) {
    s.phase != Idle || |s.blocks| + (|s.active| + 1) * MAXOPBLOCKS > LOGSIZE
  }

  ghost function Do(s: State, step: Step, size: nat): (r: Outcome) {
    match step
    case Begin(o) =>
      if MustWait(s) then Next(s.(asleep := s.asleep + {o}))
      else Next(s.(active := s.active[o := {}]))
    case Test(o, b) =>
      if |s.blocks| >= LOGSIZE || |s.blocks| >= size - 1 then TooBigPanic
      else if |s.active| < 1 then OutsidePanic
      else Next(s.(passed := s.passed[o := b]))
    case Write(o, b) =>
      if o !in s.active then Next(s)
      else
        Next(s.(active := s.active[o := s.active[o] + {b}], passed := s.passed - {o},
                blocks := if b in s.blocks then s.blocks else s.blocks + [b]))
    case End(o) =>
      if o !in s.active then Next(s)
      else if s.phase != Idle then CommittingPanic
      else
        var s' := s.(active := s.active - {o}, ended := s.ended[o := s.active[o]]);
        if |s'.active| == 0 then Next(s'.(phase := Writing)) else Next(s'.(asleep := {}))
    case Flush =>
      Next(s.(phase := Flushed, blocks := [], ended := map[], history := s.history + [Txn(s.ended, s.blocks)]))
    case FinishCommit =>
      Next(s.(phase := Idle, asleep := {}))
  }

  // ------------------------------------------------------- unspent budgets

  /** The blocks the outstanding operations may still log between them. */
  ghost function Unspent(active: map<Op, set<nat>>, cap: int): (r: int)
    decreases |active|
  {
    if active == map[] then 0
    else
      var o :| o in active;
      cap - |active[o]| + Unspent(active - {o}, cap)
  }

  lemma {:induction false} UnspentWithout(active: map<Op, set<nat>>, cap: int, o: Op)
    requires o in active
    ensures Unspent(active, cap) == cap - |active[o]| + Unspent(active - {o}, cap)
    decreases |active|
  {
    var c :| c in active && Unspent(active, cap) == cap - |active[c]| + Unspent(active - {c}, cap);
    if c != o {
      UnspentWithout(active - {c}, cap, o);
      UnspentWithout(active - {o}, cap, c);
      assert active - {c} - {o} == active - {o} - {c};
    }
  }

  lemma UnspentWith(active: map<Op, set<nat>>, cap: int, o: Op, x: set<nat>)
    ensures Unspent(active[o := x], cap) ==
            Unspent(active, cap) + cap - |x| - if o in active then cap - |active[o]| else 0
  {
    UnspentWithout(active[o := x], cap, o);
    if o in active {
      UnspentWithout(active, cap, o);
      assert active[o := x] - {o} == active - {o};
    } else {
      assert active[o := x] - {o} == active;
    }
  }

  lemma {:induction false} UnspentBounds(active: map<Op, set<nat>>, cap: nat)
    requires forall o :: o in active ==> |active[o]| <= cap
    ensures 0 <= Unspent(active, cap) <= cap * |active|
    decreases |active|
  {
    if active != map[] {
      var o :| o in active;
      UnspentWithout(active, cap, o);
      SizeWithout(active, o);
      UnspentBounds(active - {o}, cap);
      OneMore(cap, |active - {o}|);
    }
  }

  lemma SizeWithout(active: map<Op, set<nat>>, o: Op)
    requires o in active
    ensures |active| == |active - {o}| + 1
  {
    assert (active - {o}).Keys == active.Keys - {o};
  }

  lemma OneMore(cap: nat, k: nat)
    ensures cap * (k + 1) == cap * k + cap
  {
  }

  // ------------------------------------------------------------- invariant

  ghost predicate NoDuplicates(bl: seq<nat>) {
    forall i, j :: 0 <= i < j < |bl| ==> bl[i] != bl[j]
  }

  /** `bl` holds exactly what the operations of `a` and `e` logged. */
  ghost predicate Holds(bl: seq<nat>, a: map<Op, set<nat>>, e: map<Op, set<nat>>) {
    && (forall o, b :: o in a && b in a[o] ==> b in bl)
    && (forall o, b :: o in e && b in e[o] ==> b in bl)
    && (forall b :: b in bl ==> (exists o :: o in a && b in a[o]) || (exists o :: o in e && b in e[o]))
  }

  /** Group commit: while a commit runs nothing is outstanding, and with nothing
      outstanding or committing the open transaction is empty. */
  ghost predicate Grouped(s: State) {
    && (s.phase != Idle ==> s.active == map[])
    && (s.phase == Flushed || (s.phase == Idle && s.active == map[]) ==> s.blocks == [] && s.ended == map[])
  }

  /** No operation takes part in two transactions. */
  ghost predicate Disjoint(s: State) {
    && s.active.Keys !! s.ended.Keys
    && (forall t :: 0 <= t < |s.history| ==> s.history[t].ops.Keys !! s.active.Keys && s.history[t].ops.Keys !! s.ended.Keys)
    && (forall t, u :: 0 <= t < u < |s.history| ==> s.history[t].ops.Keys !! s.history[u].ops.Keys)
  }

  /** Inside log_write an operation is outstanding and within its budget. */
  ghost predicate Pending(s: State, cap: nat) {
    forall o :: o in s.passed ==> o in s.active && |s.active[o] + {s.passed[o]}| <= cap
  }

  ghost predicate Inv(s: State, cap: nat) {
    && NoDuplicates(s.blocks) && Holds(s.blocks, s.active, s.ended) && Grouped(s) && Disjoint(s)
    && (forall t :: 0 <= t < |s.history| ==>
          NoDuplicates(s.history[t].blocks) && Holds(s.history[t].blocks, map[], s.history[t].ops))
    && (forall o :: o in s.active ==> |s.active[o]| <= cap)
    && (s.asleep != {} ==> MustWait(s)) && Pending(s, cap)
  }

  lemma InitInv(cap: nat)
    ensures Inv(Init(), cap)
  {
  }

  lemma BeginKeepsInv(s: State, o: Op, size: nat, cap: nat)
    requires Inv(s, cap) && Enabled(s, Begin(o), cap)
    ensures Do(s, Begin(o), size).Next? && Inv(Do(s, Begin(o), size).s, cap)
  {
    if !MustWait(s) {
      var s' := Do(s, Begin(o), size).s;
      assert s'.active.Keys == s.active.Keys + {o};
      forall b | b in s.blocks
        ensures (exists o :: o in s'.active && b in s'.active[o]) || (exists o :: o in s'.ended && b in s'.ended[o])
      {
        if p :| p in s.active && b in s.active[p] {
          assert p in s'.active && b in s'.active[p];
        }
      }
    }
  }

  lemma WriteKeepsInv(s: State, o: Op, b: nat, size: nat, cap: nat)
    requires Inv(s, cap) && Enabled(s, Write(o, b), cap)
    ensures Do(s, Write(o, b), size).Next? && Inv(Do(s, Write(o, b), size).s, cap)
  {
    hide Holds, Disjoint, NoDuplicates;
    var s' := Do(s, Write(o, b), size).s;
    assert s'.active.Keys == s.active.Keys;
    assert |s'.active| == |s'.active.Keys| == |s.active.Keys| == |s.active|;
    HoldsAfterWrite(s.blocks, s.active, s.ended, o, b);
    NoDuplicatesAfterWrite(s.blocks, b);
    DisjointAfterWrite(s, s');
  }

  lemma NoDuplicatesAfterWrite(bl: seq<nat>, b: nat)
    requires NoDuplicates(bl)
    ensures NoDuplicates(if b in bl then bl else bl + [b])
  {
  }

  lemma DisjointAfterWrite(s: State, s': State)
    requires Disjoint(s) && s'.active.Keys == s.active.Keys && s'.ended == s.ended && s'.history == s.history
    ensures Disjoint(s')
  {
  }

  lemma HoldsAfterWrite(bl: seq<nat>, a: map<Op, set<nat>>, e: map<Op, set<nat>>, o: Op, b: nat)
    requires Holds(bl, a, e) && o in a
    ensures Holds(if b in bl then bl else bl + [b], a[o := a[o] + {b}], e)
  {
    var bl', a' := if b in bl then bl else bl + [b], a[o := a[o] + {b}];
    forall c | c in bl'
      ensures (exists p :: p in a' && c in a'[p]) || (exists p :: p in e && c in e[p])
    {
      if c == b {
        assert o in a' && c in a'[o];
      } else {
        assert c in bl;
        if p :| p in a && c in a[p] {
          assert p in a' && c in a'[p];
        }
      }
    }
  }

  lemma HoldsAfterEnd(bl: seq<nat>, a: map<Op, set<nat>>, e: map<Op, set<nat>>, o: Op)
    requires Holds(bl, a, e) && o in a && o !in e
    ensures Holds(bl, a - {o}, e[o := a[o]])
  {
    var a', e' := a - {o}, e[o := a[o]];
    forall c | c in bl
      ensures (exists p :: p in a' && c in a'[p]) || (exists p :: p in e' && c in e'[p])
    {
      if p :| p in a && c in a[p] {
        if p == o {
          assert o in e' && c in e'[o];
        } else {
          assert p in a' && c in a'[p];
        }
      } else {
        var p :| p in e && c in e[p];
        assert p in e' && c in e'[p];
      }
    }
  }

  lemma DisjointAfterEnd(s: State, s': State, o: Op)
    requires Disjoint(s) && o in s.active && s'.history == s.history
    requires s'.active == s.active - {o} && s'.ended == s.ended[o := s.active[o]]
    ensures Disjoint(s')
  {
    assert s'.active.Keys == s.active.Keys - {o} && s'.ended.Keys == s.ended.Keys + {o};
  }

  lemma EndKeepsInv(s: State, o: Op, size: nat, cap: nat)
    requires Inv(s, cap) && Enabled(s, End(o), cap)
    ensures Do(s, End(o), size).Next? && Inv(Do(s, End(o), size).s, cap)
  {
    var s' := Do(s, End(o), size).s;
    HoldsAfterEnd(s.blocks, s.active, s.ended, o);
    DisjointAfterEnd(s, s', o);
    SizeWithout(s.active, o);
    assert Grouped(s') by {
      assert |s'.active| == 0 ==> s'.active == map[];
    }
  }

  lemma CommitKeepsInv(s: State, step: Step, size: nat, cap: nat)
    requires Inv(s, cap) && Enabled(s, step, cap) && (step.Flush? || step.FinishCommit?)
    ensures Do(s, step, size).Next? && Inv(Do(s, step, size).s, cap)
  {
  }

  lemma StepKeepsInv(s: State, step: Step, size: nat, cap: nat)
    requires Inv(s, cap) && Enabled(s, step, cap) && Do(s, step, size).Next?
    ensures Inv(Do(s, step, size).s, cap)
  {
    match step
    case Begin(o) => BeginKeepsInv(s, o, size, cap);
    case Test(o, b) =>
    case Write(o, b) => WriteKeepsInv(s, o, b, size, cap);
    case End(o) => EndKeepsInv(s, o, size, cap);
    case Flush => CommitKeepsInv(s, step, size, cap);
    case FinishCommit => CommitKeepsInv(s, step, size, cap);
  }

  // ------------------------------------------------------------------ runs

  /** A run: legal steps from the freshly recovered log, none of which panics. */
  ghost predicate IsRun(ss: seq<State>, steps: seq<Step>, size: nat, cap: nat) {
    && |ss| == |steps| + 1 && ss[0] == Init()
    && forall i :: 0 <= i < |steps| ==> Legal(ss[i], steps[i], ss[i + 1], size, cap)
  }

  ghost predicate Legal(s: State, step: Step, s': State, size: nat, cap: nat) {
    Enabled(s, step, cap) && Do(s, step, size) == Next(s')
  }

  lemma {:induction false} RunsKeepInv(ss: seq<State>, steps: seq<Step>, size: nat, cap: nat, k: nat)
    requires IsRun(ss, steps, size, cap) && k < |ss|
    ensures Inv(ss[k], cap)
  {
    if k == 0 {
      InitInv(cap);
    } else {
      RunsKeepInv(ss, steps, size, cap, k - 1);
      assert Legal(ss[k - 1], steps[k - 1], ss[k - 1 + 1], size, cap);
      StepKeepsInv(ss[k - 1], steps[k - 1], size, cap);
    }
  }

  /** Room in the log: what is logged plus what may still be logged fits. */
  ghost predicate Fits(s: State, cap: nat) {
    |s.blocks| + Unspent(s.active, cap) <= LOGSIZE
  }

  /** With a cap of nine, two blocks of room are always left over. */
  ghost predicate FitsTwoSpare(s: State, cap: nat) {
    |s.blocks| + Unspent(s.active, cap) <= LOGSIZE - 2
  }

  lemma UnspentAfterWrite(s: State, o: Op, b: nat, size: nat, cap: nat)
    requires Inv(s, cap) && Enabled(s, Write(o, b), cap)
    ensures Do(s, Write(o, b), size).Next?
    ensures var s' := Do(s, Write(o, b), size).s;
            |s'.blocks| + Unspent(s'.active, cap) <= |s.blocks| + Unspent(s.active, cap)
  {
    UnspentWith(s.active, cap, o, s.active[o] + {b});
    if b in s.active[o] {
      assert s.active[o] + {b} == s.active[o];
    } else {
      assert |s.active[o] + {b}| == |s.active[o]| + 1;
    }
  }

  lemma UnspentAfterEnd(s: State, o: Op, size: nat, cap: nat)
    requires Inv(s, cap) && Enabled(s, End(o), cap)
    ensures Do(s, End(o), size).Next?
    ensures Do(s, End(o), size).s.blocks == s.blocks
    ensures Unspent(Do(s, End(o), size).s.active, cap) <= Unspent(s.active, cap)
  {
    UnspentWithout(s.active, cap, o);
  }

  lemma UnspentAfterBegin(s: State, o: Op, cap: nat)
    requires Inv(s, cap) && Enabled(s, Begin(o), cap) && !MustWait(s) && cap <= MAXOPBLOCKS
    ensures |s.blocks| + Unspent(s.active[o := {}], cap)
            <= if s.active == map[] then cap else LOGSIZE - (MAXOPBLOCKS - cap) * (|s.active| + 1)
  {
    UnspentWith(s.active, cap, o, {});
    UnspentBounds(s.active, cap);
    Distribute(cap, |s.active|);
  }

  lemma Distribute(cap: nat, k: nat)
    ensures (MAXOPBLOCKS - cap) * (k + 1) == MAXOPBLOCKS * (k + 1) - cap * k - cap
  {
  }

  lemma StepKeepsRoom(s: State, step: Step, size: nat, cap: nat)
    requires Inv(s, cap) && Enabled(s, step, cap) && Do(s, step, size).Next? && cap <= MAXOPBLOCKS
    ensures Fits(s, cap) ==> Fits(Do(s, step, size).s, cap)
    ensures cap < MAXOPBLOCKS && FitsTwoSpare(s, cap) ==> FitsTwoSpare(Do(s, step, size).s, cap)
  {
    hide Holds, Disjoint, NoDuplicates, Seen, Unspent;
    match step
    case Begin(o) =>
      if !MustWait(s) {
        UnspentAfterBegin(s, o, cap);
        if s.active != map[] {
          assert |s.active| >= 1;
          if cap < MAXOPBLOCKS {
            SpareGrows(MAXOPBLOCKS - cap, |s.active| + 1);
          }
        }
      }
    case Test(o, b) =>
    case Write(o, b) => UnspentAfterWrite(s, o, b, size, cap);
    case End(o) => UnspentAfterEnd(s, o, size, cap);
    case Flush =>
    case FinishCommit =>
  }

  lemma SpareGrows(x: nat, k: nat)
    requires x >= 1 && k >= 2
    ensures x * k >= 2
  {
    assert x * k >= 1 * k;
  }

  /** The log never overcommits: over every run in which each operation keeps to
      MAXOPBLOCKS, lh.n plus all unspent budget fits LOGSIZE. */
  lemma {:induction false} RunsFit(ss: seq<State>, steps: seq<Step>, size: nat, cap: nat, k: nat)
    requires IsRun(ss, steps, size, cap) && k < |ss| && cap <= MAXOPBLOCKS
    ensures Fits(ss[k], cap)
    ensures cap < MAXOPBLOCKS ==> FitsTwoSpare(ss[k], cap)
  {
    hide Inv, Do, Enabled;
    if k > 0 {
      RunsKeepInv(ss, steps, size, cap, k - 1);
      RunsFit(ss, steps, size, cap, k - 1);
      assert Legal(ss[k - 1], steps[k - 1], ss[k - 1 + 1], size, cap);
      StepKeepsRoom(ss[k - 1], steps[k - 1], size, cap);
    }
  }

  /** end_op's panic and log_write's "outside of trans" panic cannot happen. */
  lemma OtherPanicsUnreachable(ss: seq<State>, steps: seq<Step>, size: nat, cap: nat, step: Step)
    requires IsRun(ss, steps, size, cap) && Enabled(ss[|steps|], step, cap)
    ensures Do(ss[|steps|], step, size) != CommittingPanic && Do(ss[|steps|], step, size) != OutsidePanic
  {
    RunsKeepInv(ss, steps, size, cap, |steps|);
  }

  // -------------------------------------- the "too big a transaction" panic

  ghost predicate TooBigReachable(size: nat, cap: nat) {
    exists ss, steps, step ::
      IsRun(ss, steps, size, cap) && Enabled(ss[|steps|], step, cap) && Do(ss[|steps|], step, size).TooBigPanic?
  }

  /** More blocks logged than the log has room for on disk behind its header block. */
  ghost predicate OverrunReachable(size: nat, cap: nat) {
    exists ss: seq<State>, steps: seq<Step> :: IsRun(ss, steps, size, cap) && |ss[|steps|].blocks| > size - 1
  }

  /** More blocks logged than lh.block has entries. */
  ghost predicate ArrayOverrunReachable(size: nat, cap: nat) {
    exists ss: seq<State>, steps: seq<Step> :: IsRun(ss, steps, size, cap) && |ss[|steps|].blocks| > LOGSIZE
  }

  /** Below MAXOPBLOCKS blocks each, the guard never fires and the log has room. */
  lemma NineIsSafe(ss: seq<State>, steps: seq<Step>, cap: nat, step: Step)
    requires IsRun(ss, steps, NLOG, cap) && cap < MAXOPBLOCKS && Enabled(ss[|steps|], step, cap)
    ensures !Do(ss[|steps|], step, NLOG).TooBigPanic?
  {
    NineFits(ss, steps, cap, |steps|);
  }

  lemma NineFits(ss: seq<State>, steps: seq<Step>, cap: nat, k: nat)
    requires IsRun(ss, steps, NLOG, cap) && cap < MAXOPBLOCKS && k < |ss|
    ensures |ss[k].blocks| <= NLOG - 2
  {
    RunsKeepInv(ss, steps, NLOG, cap, k);
    RunsFit(ss, steps, NLOG, cap, k);
    UnspentBounds(ss[k].active, cap);
  }

  /** The last state of a run whose open transaction is numbered 0, 1, 2, ... */
  ghost predicate Numbered(s: State) {
    s.passed == map[] && forall b :: b in s.blocks ==> b < |s.blocks|
  }

  /** Any run extends by `j` fresh blocks of operation `o` while there is room. */
  lemma {:induction false} Fill(ss: seq<State>, steps: seq<Step>, cap: nat, o: Op, j: nat)
    returns (ss': seq<State>, steps': seq<Step>)
    requires IsRun(ss, steps, NLOG, cap) && Numbered(ss[|steps|]) && o in ss[|steps|].active
    requires |ss[|steps|].active[o]| + j <= cap && |ss[|steps|].blocks| + j <= NLOG - 1
    ensures IsRun(ss', steps', NLOG, cap) && Numbered(ss'[|steps'|])
    ensures ss'[|steps'|].active.Keys == ss[|steps|].active.Keys
    ensures |ss'[|steps'|].blocks| == |ss[|steps|].blocks| + j
    ensures forall p :: p in ss[|steps|].active ==>
              |ss'[|steps'|].active[p]| == |ss[|steps|].active[p]| + if p == o then j else 0
    decreases j
  {
    if j == 0 {
      ss', steps' := ss, steps;
    } else {
      var b := |ss[|steps|].blocks|;
      var mid, midSteps := OneTest(ss, steps, cap, o, b);
      var all, allSteps := OneWrite(mid, midSteps, cap, o, b);
      assert allSteps == steps + [Test(o, b), Write(o, b)];
      ss', steps' := Fill(all, allSteps, cap, o, j - 1);
    }
  }

  /** The first half of log_write: the tests, which a fresh block passes. */
  lemma OneTest(ss: seq<State>, steps: seq<Step>, cap: nat, o: Op, b: nat)
    returns (ss': seq<State>, steps': seq<Step>)
    requires IsRun(ss, steps, NLOG, cap) && o in ss[|steps|].active && o !in ss[|steps|].passed
    requires |ss[|steps|].active[o]| + 1 <= cap && |ss[|steps|].blocks| <= NLOG - 2
    ensures steps' == steps + [Test(o, b)] && IsRun(ss', steps', NLOG, cap)
    ensures ss'[|steps'|] == ss[|steps|].(passed := ss[|steps|].passed[o := b])
  {
    var s := ss[|steps|];
    assert |s.active[o] + {b}| <= |s.active[o]| + 1;
    assert |s.active.Keys| >= 1 by { assert o in s.active.Keys; }
    ss', steps' := Append(ss, steps, NLOG, cap, Test(o, b)), steps + [Test(o, b)];
  }

  /** The second half, of a block no operation has logged. */
  lemma OneWrite(ss: seq<State>, steps: seq<Step>, cap: nat, o: Op, b: nat)
    returns (ss': seq<State>, steps': seq<Step>)
    requires IsRun(ss, steps, NLOG, cap) && o in ss[|steps|].passed && ss[|steps|].passed[o] == b && b !in ss[|steps|].blocks
    ensures steps' == steps + [Write(o, b)] && IsRun(ss', steps', NLOG, cap)
    ensures var s, t := ss[|steps|], ss'[|steps'|];
            && o in s.active && t == s.(active := s.active[o := s.active[o] + {b}], passed := s.passed - {o}, blocks := s.blocks + [b])
            && t.active.Keys == s.active.Keys && |t.active[o]| == |s.active[o]| + 1
  {
    var s := ss[|steps|];
    RunsKeepInv(ss, steps, NLOG, cap, |steps|);
    assert b !in s.active[o];
    ss', steps' := Append(ss, steps, NLOG, cap, Write(o, b)), steps + [Write(o, b)];
  }

  ghost function Append(ss: seq<State>, steps: seq<Step>, size: nat, cap: nat, step: Step): (r: seq<State>)
    requires IsRun(ss, steps, size, cap) && Enabled(ss[|steps|], step, cap) && Do(ss[|steps|], step, size).Next?
    ensures IsRun(r, steps + [step], size, cap) && r[|steps| + 1] == Do(ss[|steps|], step, size).s
  {
    ss + [Do(ss[|steps|], step, size).s]
  }

  /** Three operations admitted side by side. */
  lemma ThreeBegin(cap: nat) returns (ss: seq<State>, steps: seq<Step>)
    ensures IsRun(ss, steps, NLOG, cap)
    ensures ss[|steps|] == Init().(active := map[0 := {}, 1 := {}, 2 := {}])
  {
    ss, steps := [Init()], [];
    ss, steps := Append(ss, steps, NLOG, cap, Begin(0)), steps + [Begin(0)];
    assert ss[|steps|].active.Keys == {0};
    ss, steps := Append(ss, steps, NLOG, cap, Begin(1)), steps + [Begin(1)];
    assert ss[|steps|].active.Keys == {0, 1};
    ss, steps := Append(ss, steps, NLOG, cap, Begin(2)), steps + [Begin(2)];
  }

  /** Three legal operations of ten, nine and nine blocks: each of the last two may
      log one more. */
  lemma TwentyEight(cap: nat) returns (ss: seq<State>, steps: seq<Step>)
    requires cap >= MAXOPBLOCKS
    ensures IsRun(ss, steps, NLOG, cap) && Numbered(ss[|steps|]) && |ss[|steps|].blocks| == 28
    ensures var a := ss[|steps|].active; a.Keys == {0, 1, 2} && |a[0]| == 10 && |a[1]| == |a[2]| == 9
  {
    ss, steps := ThreeBegin(cap);
    ss, steps := Fill(ss, steps, cap, 0, 10);
    ss, steps := Fill(ss, steps, cap, 1, 9);
    ss, steps := Fill(ss, steps, cap, 2, 9);
  }

  /** One after the other, the second of the two meets the panic. */
  lemma TenPanics(cap: nat)
    requires cap >= MAXOPBLOCKS
    ensures TooBigReachable(NLOG, cap)
  {
    var ss, steps := TwentyEight(cap);
    ss, steps := Fill(ss, steps, cap, 1, 1);
    var s := ss[|steps|];
    assert |s.active[2] + {29}| <= 10;
    assert Enabled(s, Test(2, 29), cap);
    assert Do(s, Test(2, 29), NLOG).TooBigPanic?;
  }

  /** Both at once, the tests are passed twice before either block is recorded: the
      thirty blocks fill lh.block, and write_log would put the last of them into the
      block behind the log. */
  lemma TenOverruns(cap: nat)
    requires cap >= MAXOPBLOCKS
    ensures OverrunReachable(NLOG, cap)
  {
    var ss, steps := TwentyEight(cap);
    ss, steps := OneTest(ss, steps, cap, 1, 28);
    ss, steps := OneTest(ss, steps, cap, 2, 29);
    ss, steps := OneWrite(ss, steps, cap, 1, 28);
    ss, steps := OneWrite(ss, steps, cap, 2, 29);
    assert |ss[|steps|].blocks| == 30;
  }

  /** The advertised budget is one block too many: with nlog = LOGSIZE as mkfs
      sets it, the "too big a transaction" panic is unreachable exactly when
      operations keep to fewer than MAXOPBLOCKS distinct blocks. */
  lemma TooBigExactly(cap: nat)
    ensures TooBigReachable(NLOG, cap) <==> cap >= MAXOPBLOCKS
  {
    if cap >= MAXOPBLOCKS {
      TenPanics(cap);
    } else {
      forall ss, steps, step | IsRun(ss, steps, NLOG, cap) && Enabled(ss[|steps|], step, cap)
        ensures !Do(ss[|steps|], step, NLOG).TooBigPanic?
      {
        NineIsSafe(ss, steps, cap, step);
      }
    }
  }

  /** And exactly then do the transactions always fit the log on disk, because the
      guard is tested without the lock. */
  lemma OverrunExactly(cap: nat)
    ensures OverrunReachable(NLOG, cap) <==> cap >= MAXOPBLOCKS
  {
    if cap >= MAXOPBLOCKS {
      TenOverruns(cap);
    } else {
      forall ss: seq<State>, steps: seq<Step> | IsRun(ss, steps, NLOG, cap)
        ensures |ss[|steps|].blocks| <= NLOG - 1
      {
        NineFits(ss, steps, cap, |steps|);
      }
    }
  }

  /** Up to MAXOPBLOCKS blocks each, a transaction always fits lh.block. */
  lemma TenFitArray(ss: seq<State>, steps: seq<Step>, size: nat, cap: nat, k: nat)
    requires IsRun(ss, steps, size, cap) && cap <= MAXOPBLOCKS && k < |ss|
    ensures |ss[k].blocks| <= LOGSIZE
  {
    RunsKeepInv(ss, steps, size, cap, k);
    RunsFit(ss, steps, size, cap, k);
    UnspentBounds(ss[k].active, cap);
  }

  /** With one block more, three operations can be past the tests at once with 28
      blocks logged, and lh.block gets a 31st. */
  lemma ElevenOverrun(cap: nat)
    requires cap > MAXOPBLOCKS
    ensures ArrayOverrunReachable(NLOG, cap)
  {
    var ss, steps := TwentyEight(cap);
    ss, steps := OneTest(ss, steps, cap, 0, 28);
    ss, steps := OneTest(ss, steps, cap, 1, 29);
    ss, steps := OneTest(ss, steps, cap, 2, 30);
    ss, steps := OneWrite(ss, steps, cap, 0, 28);
    ss, steps := OneWrite(ss, steps, cap, 1, 29);
    ss, steps := OneWrite(ss, steps, cap, 2, 30);
    assert |ss[|steps|].blocks| == 31;
  }

  /** The array in memory is safe for exactly what MAXOPBLOCKS announces. */
  lemma ArrayOverrunExactly(cap: nat)
    ensures ArrayOverrunReachable(NLOG, cap) <==> cap > MAXOPBLOCKS
  {
    if cap > MAXOPBLOCKS {
      ElevenOverrun(cap);
    } else {
      forall ss: seq<State>, steps: seq<Step> | IsRun(ss, steps, NLOG, cap)
        ensures |ss[|steps|].blocks| <= LOGSIZE
      {
        TenFitArray(ss, steps, NLOG, cap, |steps|);
      }
    }
  }

  // ---------------------------------------------------------- no deadlock

  /** A step by which an outstanding operation, or the commit, gets on. */
  predicate Finishes(step: Step) {
    step.Write? || step.End? || step.Flush? || step.FinishCommit?
  }

  /** Such steps, from `s` on. */
  ghost predicate Finishing(ss: seq<State>, steps: seq<Step>, s: State, size: nat, cap: nat) {
    && |ss| == |steps| + 1 && ss[0] == s && (forall i :: 0 <= i < |steps| ==> Finishes(steps[i]))
    && forall i :: 0 <= i < |steps| ==> Legal(ss[i], steps[i], ss[i + 1], size, cap)
  }

  lemma FinishingMore(ss: seq<State>, steps: seq<Step>, s: State, step: Step, t: State, size: nat, cap: nat)
    requires Finishing(ss, steps, t, size, cap) && Finishes(step) && Legal(s, step, t, size, cap)
    ensures Finishing([s] + ss, [step] + steps, s, size, cap)
  {
    hide Legal;
    var ss', steps' := [s] + ss, [step] + steps;
    forall i | 0 <= i < |steps'|
      ensures Legal(ss'[i], steps'[i], ss'[i + 1], size, cap)
    {
      if i > 0 {
        assert Legal(ss[i - 1], steps[i - 1], ss[i - 1 + 1], size, cap);
      }
    }
  }

  /** How many such steps it takes. */
  ghost function ToGo(s: State): nat {
    |s.passed| + |s.active| + if s.phase == Flushed then 1 else if s.phase == Writing || s.active != map[] then 2 else 0
  }

  /** Waiting cannot deadlock: from any reachable state the outstanding operations
      and the commit, by finishing, wake every waiter and make room to admit one. */
  lemma {:induction false} WaitersAreAdmitted(s: State, size: nat, cap: nat) returns (steps: seq<Step>, ss: seq<State>)
    requires Inv(s, cap)
    ensures Finishing(ss, steps, s, size, cap) && |steps| <= |s.passed| + |s.active| + 2
    ensures |steps| <= ToGo(s)
    ensures ss[|steps|].asleep == {} && !MustWait(ss[|steps|])
    decreases ToGo(s)
  {
    hide Inv, Do, Enabled;
    if s.phase == Idle && s.active == map[] {
      NobodyWaits(s, cap);
      steps, ss := [], [s];
    } else {
      var step := NextFinish(s, cap);
      var t := FinishStep(s, step, size, cap);
      var more, rest := WaitersAreAdmitted(t, size, cap);
      FinishingMore(rest, more, s, step, t, size, cap);
      hide Finishing;
      steps, ss := [step] + more, [s] + rest;
    }
  }

  lemma NobodyWaits(s: State, cap: nat)
    requires Inv(s, cap) && s.phase == Idle && s.active == map[]
    ensures s.asleep == {} && !MustWait(s)
  {
  }

  ghost function NextFinish(s: State, cap: nat): (step: Step)
    requires Inv(s, cap) && !(s.phase == Idle && s.active == map[])
    ensures Enabled(s, step, cap) && Finishes(step) && (step.End? ==> s.phase == Idle)
  {
    if s.phase == Flushed then FinishCommit
    else if s.phase == Writing then Flush
    else if s.passed != map[] then
      var o :| o in s.passed;
      Write(o, s.passed[o])
    else
      var o :| o in s.active;
      End(o)
  }

  lemma FinishStep(s: State, step: Step, size: nat, cap: nat) returns (t: State)
    requires Inv(s, cap) && Enabled(s, step, cap) && Finishes(step)
    requires step.End? ==> s.phase == Idle
    ensures Legal(s, step, t, size, cap) && Inv(t, cap) && ToGo(t) < ToGo(s)
  {
    hide Holds, Disjoint, NoDuplicates, Seen;
    if step.Write? {
      WriteKeepsInv(s, step.o, step.b, size, cap);
    } else if step.End? {
      EndKeepsInv(s, step.o, size, cap);
      SizeWithout(s.active, step.o);
    } else {
      CommitKeepsInv(s, step, size, cap);
    }
    t := Do(s, step, size).s;
    if step.Write? {
      FewerPassed(s, t, step.o);
    }
  }

  lemma FewerPassed(s: State, t: State, o: Op)
    requires o in s.passed && o in s.active && t.passed == s.passed - {o} && t.phase == s.phase
    requires o in t.active && t.active == s.active[o := t.active[o]]
    ensures ToGo(t) < ToGo(s)
  {
    assert t.passed.Keys == s.passed.Keys - {o};
    assert t.active.Keys == s.active.Keys;
    assert |t.active| == |t.active.Keys| && |s.active| == |s.active.Keys|;
    assert |t.passed| == |t.passed.Keys| && |s.passed| == |s.passed.Keys|;
  }

  // ------------------------------------------------- operations are atomic

  /** No operation straddles two transactions. */
  lemma OneTransaction(ss: seq<State>, steps: seq<Step>, size: nat, cap: nat, t: nat, u: nat, o: Op)
    requires IsRun(ss, steps, size, cap) && t < u < |ss[|steps|].history|
    ensures var h := ss[|steps|].history; !(o in h[t].ops && o in h[u].ops)
  {
    RunsKeepInv(ss, steps, size, cap, |steps|);
    var h := ss[|steps|].history;
    assert h[t].ops.Keys !! h[u].ops.Keys;
  }

  /** A transaction holds all and only the blocks its operations logged. */
  lemma TransactionsAreWhole(ss: seq<State>, steps: seq<Step>, size: nat, cap: nat, t: nat)
    requires IsRun(ss, steps, size, cap) && t < |ss[|steps|].history|
    ensures var x := ss[|steps|].history[t]; forall b :: b in x.blocks <==> exists p :: p in x.ops && b in x.ops[p]
  {
    RunsKeepInv(ss, steps, size, cap, |steps|);
  }

  /** The blocks of one operation as found on disk `r`. */
  ghost predicate OpKept(r: Disk, bl: set<nat>, cache: map<nat, Block>) {
    forall b :: b in bl && b < |r| && b in cache ==> r[b] == cache[b]
  }

  ghost predicate OpDropped(r: Disk, bl: set<nat>, d: Disk) {
    forall b :: b in bl && b < |r| && b < |d| ==> r[b] == d[b]
  }

  /** Below MAXOPBLOCKS the open transaction always fits the log that mkfs makes. */
  lemma RunsAreCommittable(ss: seq<State>, steps: seq<Step>, cap: nat, i: nat, g: Log.Geometry, d: Disk)
    requires IsRun(ss, steps, NLOG, cap) && cap < MAXOPBLOCKS && i < |ss| && g.size == NLOG
    requires forall b :: b in ss[i].blocks ==> b < |d| && !Log.InLog(g, b)
    ensures Log.ValidBlocks(g, d, ss[i].blocks)
  {
    RunsKeepInv(ss, steps, NLOG, cap, i);
    NineFits(ss, steps, cap, i);
    forall j | 0 <= j < |ss[i].blocks|
      ensures ss[i].blocks[j] < |d| && !Log.InLog(g, ss[i].blocks[j])
    {
      assert ss[i].blocks[j] in ss[i].blocks;
    }
  }

  /** `ds` starts with what a crash at point `k` of committing `bl` leaves, and goes
      on with interrupted recoveries. */
  ghost predicate Crashed(g: Log.Geometry, d: Disk, bl: seq<nat>, cache: map<nat, Block>, k: nat, ds: seq<Disk>) {
    && Log.ValidDisk(g, d) && Log.ValidBlocks(g, d, bl) && (forall i :: 0 <= i < |bl| ==> bl[i] in cache)
    && k < |Log.CommitPoints(g, d, bl, cache)| && Log.Reboots(g, ds) && ds[0] == Log.CommitPoints(g, d, bl, cache)[k]
  }

  /** Crash atomicity seen from the operations: over every run in which operations
      log home blocks and keep below MAXOPBLOCKS, a commit finds a transaction that
      fits the log, and when a crash hits it, every operation of that transaction is
      kept whole or dropped whole, and all of them share one fate. */
  lemma OperationsAreAtomic(ss: seq<State>, steps: seq<Step>, cap: nat, i: nat,
                            g: Log.Geometry, d: Disk, cache: map<nat, Block>)
    requires IsRun(ss, steps, NLOG, cap) && cap < MAXOPBLOCKS && i < |ss| && ss[i].phase == Writing
    requires g.size == NLOG && Log.LogOk(g, d) && Log.Committed(g, d) == []
    requires forall b :: b in ss[i].blocks ==> b < |d| && !Log.InLog(g, b) && b in cache
    ensures ss[i].active == map[] && Log.ValidBlocks(g, d, ss[i].blocks)
    ensures forall k, ds :: Crashed(g, d, ss[i].blocks, cache, k, ds) ==> OneFate(g, d, cache, ss[i].ended, ds)
  {
    RunsKeepInv(ss, steps, NLOG, cap, i);
    RunsAreCommittable(ss, steps, cap, i, g, d);
    forall k, ds | Crashed(g, d, ss[i].blocks, cache, k, ds)
      ensures OneFate(g, d, cache, ss[i].ended, ds)
    {
      CrashedOperations(ss[i], cap, g, d, cache, k, ds);
    }
  }

  ghost predicate OneFate(g: Log.Geometry, d: Disk, cache: map<nat, Block>, ops: map<Op, set<nat>>, ds: seq<Disk>) {
    |ds| > 0 && Log.LogOk(g, ds[|ds| - 1]) &&
    var r := Log.Recovered(g, ds[|ds| - 1]);
    || (forall o :: o in ops ==> OpKept(r, ops[o], cache))
    || (forall o :: o in ops ==> OpDropped(r, ops[o], d))
  }

  lemma CrashedOperations(s: State, cap: nat, g: Log.Geometry, d: Disk, cache: map<nat, Block>, k: nat, ds: seq<Disk>)
    requires Inv(s, cap) && s.phase == Writing
    requires Log.LogOk(g, d) && Log.Committed(g, d) == [] && Crashed(g, d, s.blocks, cache, k, ds)
    ensures OneFate(g, d, cache, s.ended, ds)
  {
    hide Log.CommitPoints, Log.Recovered, Log.LogOk, Log.Committed;
    Log.CommitIsAtomic(g, d, s.blocks, cache, k, ds);
    forall o, b | o in s.ended && b in s.ended[o]
      ensures b < |d| && !Log.InLog(g, b) && b in s.blocks
    {
      assert b in s.blocks;
    }
  }
}
