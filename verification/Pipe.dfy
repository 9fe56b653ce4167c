/** Pipes (pipe.c): a ring of PIPESIZE bytes between two 32-bit counters that wrap
    around. A method here is one stretch of pipewrite, piperead or pipeclose with
    the pipe's lock held: it ends where the lock is given up, by returning or by
    going to sleep. Any interleaving of processes is a sequence of such stretches. */
module Pipe {
  import opened Common

  const PIPESIZE: nat := 512

  datatype Outcome = Returned | Failed | Asleep

  /** The two counters as the code compares them tell how many bytes are in the
      pipe at empty and at full, and the slot of a byte survives wrap-around. */
  lemma Wrapping(read: nat, written: nat)
    requires read <= written <= read + PIPESIZE
    ensures read % WORD_LIMIT == written % WORD_LIMIT <==> read == written
    ensures written % WORD_LIMIT == (read % WORD_LIMIT + PIPESIZE) % WORD_LIMIT <==> written == read + PIPESIZE
  {
    var a, b := read / WORD_LIMIT, written / WORD_LIMIT;
    assert read == a * WORD_LIMIT + read % WORD_LIMIT && written == b * WORD_LIMIT + written % WORD_LIMIT;
  }

  lemma SlotOf(k: nat)
    ensures k % WORD_LIMIT % PIPESIZE == k % PIPESIZE
  {
    var q := k / WORD_LIMIT;
    assert k == q * WORD_LIMIT + k % WORD_LIMIT;
    assert WORD_LIMIT == 8388608 * PIPESIZE;
    var r := k % WORD_LIMIT;
    assert k == (q * 8388608) * PIPESIZE + r;
    SameSlot(q * 8388608, r);
  }

  lemma SameSlot(m: nat, r: nat)
    ensures (m * PIPESIZE + r) % PIPESIZE == r % PIPESIZE
  {
    var q := r / PIPESIZE;
    assert r == q * PIPESIZE + r % PIPESIZE;
    assert m * PIPESIZE + r == (m + q) * PIPESIZE + r % PIPESIZE;
  }

  lemma NextCount(k: nat)
    ensures (k % WORD_LIMIT + 1) % WORD_LIMIT == (k + 1) % WORD_LIMIT
  {
  }

  /** Bytes that are in the pipe together lie in different slots. */
  lemma SlotsApart(i: nat, j: nat)
    requires i < j < i + PIPESIZE
    ensures i % PIPESIZE != j % PIPESIZE
  {
  }

  // ------------------------------------------------------ runs of stretches

  /** A pipe as its users see it: every byte ever written and every byte ever read,
      in order, and who sleeps on &p->nread and on &p->nwrite. */
  datatype Flow = Flow(
    written: seq<Byte>, consumed: seq<Byte>, readers: set<nat>, writers: set<nat>, readopen: bool, writeopen: bool)

  /** What is read is what was written, in order, with nothing lost or repeated. */
  ghost predicate InOrder(s: Flow) {
    && s.consumed <= s.written && |s.written| <= |s.consumed| + PIPESIZE
    && (!s.readopen ==> s.readers == {}) && (!s.writeopen ==> s.writers == {})
  }

  /** A reader sleeps only on an empty pipe that someone can still write to, and a
      writer only on a full one that someone can still read from. */
  ghost predicate AtRest(s: Flow) {
    && (s.readers != {} ==> |s.written| == |s.consumed| && s.writeopen)
    && (s.writers != {} ==> |s.written| == |s.consumed| + PIPESIZE && s.readopen)
  }

  /** pipewrite by `p` stores as many of its bytes as fit. It returns if that is all
      of them, fails if nobody can read or it was killed, and else sleeps. */
  function Wrote(s: Flow, p: nat, bytes: seq<Byte>, killed: bool): (Flow, Outcome, nat)
    requires |s.written| <= |s.consumed| + PIPESIZE
  {
    var i := Min(|bytes|, PIPESIZE - |s.written| + |s.consumed|);
    var s' := s.(written := s.written + bytes[..i]);
    if i == |bytes| then (s'.(readers := {}), Returned, i)
    else if killed || !s.readopen then (s', Failed, i)
    else (s'.(readers := {}, writers := s.writers + {p}), Asleep, i)
  }

  /** piperead by `p` sleeps, or fails if killed, when the pipe is empty and can
      still be written to, and else takes the next bytes, up to `n`. */
  function Took(s: Flow, p: nat, n: nat, killed: bool): (Flow, Outcome, seq<Byte>)
    requires |s.consumed| <= |s.written|
  {
    if |s.written| == |s.consumed| && s.writeopen then
      if killed then (s, Failed, []) else (s.(readers := s.readers + {p}), Asleep, [])
    else
      var bytes := s.written[|s.consumed|..|s.consumed| + Min(n, |s.written| - |s.consumed|)];
      (s.(consumed := s.consumed + bytes, writers := {}), Returned, bytes)
  }

  function Closed(s: Flow, writable: bool): Flow {
    if writable then s.(writeopen := false, readers := {}) else s.(readopen := false, writers := {})
  }

  /** Stretches of any processes in any order; kill makes a sleeper runnable. */
  datatype Step =
    | DoWrite(p: nat, bytes: seq<Byte>, killed: bool)
    | DoRead(p: nat, n: nat, killed: bool)
    | DoClose(writable: bool)
    | Kill(p: nat)

  /** An end is used only while it is open, by a process that is awake, and closed
      when no process has it open any more. */
  ghost predicate Enabled(s: Flow, step: Step) {
    match step
    case DoWrite(p, _, _) => s.writeopen && p !in s.writers
    case DoRead(p, _, _) => s.readopen && p !in s.readers
    case DoClose(writable) => if writable then s.writers == {} else s.readers == {}
    case Kill(_) => true
  }

  function Do(s: Flow, step: Step): Flow
    requires |s.consumed| <= |s.written| <= |s.consumed| + PIPESIZE
  {
    match step
    case DoWrite(p, bytes, killed) => Wrote(s, p, bytes, killed).0
    case DoRead(p, n, killed) => Took(s, p, n, killed).0
    case DoClose(writable) => Closed(s, writable)
    case Kill(p) => s.(readers := s.readers - {p}, writers := s.writers - {p})
  }

  ghost predicate Legal(s: Flow, step: Step, s': Flow) {
    Enabled(s, step) && |s.consumed| <= |s.written| <= |s.consumed| + PIPESIZE && s' == Do(s, step)
  }

  const NEWPIPE: Flow := Flow([], [], {}, {}, true, true)

  ghost predicate IsRun(ss: seq<Flow>, steps: seq<Step>) {
    && |ss| == |steps| + 1 && ss[0] == NEWPIPE
    && forall k :: 0 <= k < |steps| ==> Legal(ss[k], steps[k], ss[k + 1])
  }

  lemma StepKeepsOrder(s: Flow, step: Step)
    requires InOrder(s) && Enabled(s, step)
    ensures InOrder(Do(s, step))
    ensures s.written <= Do(s, step).written && s.consumed <= Do(s, step).consumed
  {
  }

  /** A writer that is killed with the pipe full after storing something returns
      without waking the readers; nothing else leaves anyone asleep wrongly. */
  predicate Unwoken(s: Flow, step: Step)
    requires |s.written| <= |s.consumed| + PIPESIZE
  {
    && step.DoWrite? && step.killed && s.readers != {}
    && PIPESIZE - |s.written| + |s.consumed| < |step.bytes|
  }

  /** From a new pipe: a reader sleeps, and then a writer that has been killed fills
      the pipe and fails. The reader sleeps on with 512 bytes to read. */
  lemma ReaderSleepsOn() returns (ss: seq<Flow>, steps: seq<Step>)
    ensures IsRun(ss, steps) && |steps| == 2
    ensures ss[2].readers == {1} && |ss[2].written| == PIPESIZE && ss[2].consumed == [] && !AtRest(ss[2])
  {
    var bytes := seq(PIPESIZE + 1, _ => 0);
    steps := [DoRead(1, 1, false), DoWrite(2, bytes, true)];
    var s1 := Do(NEWPIPE, steps[0]);
    ss := [NEWPIPE, s1, Do(s1, steps[1])];
    assert Legal(ss[0], steps[0], ss[1]) && Legal(ss[1], steps[1], ss[2]);
  }

  lemma StepKeepsRest(s: Flow, step: Step)
    requires InOrder(s) && AtRest(s) && Enabled(s, step)
    ensures AtRest(Do(s, step)) <==> !Unwoken(s, step)
  {
    if step.DoWrite? {
      var i := Min(|step.bytes|, PIPESIZE - |s.written| + |s.consumed|);
      assert |s.written + step.bytes[..i]| == |s.written| + i;
    }
  }

  /** In every interleaving the bytes read are a prefix of the bytes written and at
      most PIPESIZE are under way. */
  lemma {:induction false} RunsKeepOrder(ss: seq<Flow>, steps: seq<Step>, k: nat)
    requires IsRun(ss, steps) && k < |ss|
    ensures InOrder(ss[k])
  {
    if k > 0 {
      RunsKeepOrder(ss, steps, k - 1);
      assert Legal(ss[k - 1], steps[k - 1], ss[k - 1 + 1]);
      StepKeepsOrder(ss[k - 1], steps[k - 1]);
    }
  }

  /** A read of at least one byte that returns none has seen the end of file: the write
      end is closed, and in this state and every later one all that was written has
      been read. */
  lemma {:induction false} EndOfFile(ss: seq<Flow>, steps: seq<Step>, k: nat, m: nat)
    requires IsRun(ss, steps) && k < m < |ss| && steps[k].DoRead? && steps[k].n > 0
    requires |ss[k].consumed| <= |ss[k].written|
    requires var r := Took(ss[k], steps[k].p, steps[k].n, steps[k].killed); r.1 == Returned && r.2 == []
    ensures !ss[m].writeopen && ss[m].consumed == ss[m].written == ss[k].written
    decreases m
  {
    RunsKeepOrder(ss, steps, k);
    RunsKeepOrder(ss, steps, m - 1);
    assert Legal(ss[m - 1], steps[m - 1], ss[m - 1 + 1]);
    if m > k + 1 {
      EndOfFile(ss, steps, k, m - 1);
    }
  }

  /** Nothing written gets lost: a reader that goes on reading while bytes are left gets
      them, in order and at once. */
  lemma ReadsWhatIsThere(s: Flow, p: nat, n: nat, killed: bool)
    requires InOrder(s) && |s.consumed| < |s.written|
    ensures var r, left := Took(s, p, n, killed), s.written[|s.consumed|..];
            && r.1 == Returned && r.2 == (if n < |left| then left[..n] else left) && r.0.consumed == s.consumed + r.2
  {
  }

  /** Without that one kind of kill nobody ever sleeps while it could go on, and
      reader and writer never sleep at the same time. */
  lemma {:induction false} RunsKeepRest(ss: seq<Flow>, steps: seq<Step>, k: nat)
    requires IsRun(ss, steps) && k < |ss|
    requires forall j :: 0 <= j < k ==> |ss[j].written| <= |ss[j].consumed| + PIPESIZE && !Unwoken(ss[j], steps[j])
    ensures AtRest(ss[k]) && (ss[k].readers == {} || ss[k].writers == {})
  {
    if k > 0 {
      RunsKeepRest(ss, steps, k - 1);
      RunsKeepOrder(ss, steps, k - 1);
      assert Legal(ss[k - 1], steps[k - 1], ss[k - 1 + 1]);
      StepKeepsRest(ss[k - 1], steps[k - 1]);
    }
  }

  // ------------------------------------------------------------- in place

  class Pipe {
    const data: array<Byte>
    var nread: nat
    var nwrite: nat
    var readopen: bool
    var writeopen: bool
    ghost var written: seq<Byte>
    ghost var consumed: seq<Byte>
    ghost var readers: set<nat>
    ghost var writers: set<nat>

    ghost function View(): Flow
      reads this
    {
      Flow(written, consumed, readers, writers, readopen, writeopen)
    }

    /** The bytes under way lie in the ring, between the two wrapped counters. */
    ghost predicate Valid()
      reads this, data
    {
      && data.Length == PIPESIZE && InOrder(View())
      && nread == |consumed| % WORD_LIMIT && nwrite == |written| % WORD_LIMIT
      && forall i :: |consumed| <= i < |written| ==> data[i % PIPESIZE] == written[i]
    }

    constructor ()
      ensures Valid() && View() == NEWPIPE && fresh(data)
    {
      data := new Byte[PIPESIZE];
      nread, nwrite, readopen, writeopen := 0, 0, true, true;
      written, consumed, readers, writers := [], [], {}, {};
    }

    /** pipewrite by `p`, from where it has the lock to where it gives it up, with
        `bytes` still to be written. */
    method Write(p: nat, bytes: seq<Byte>, killed: bool) returns (outcome: Outcome, i: nat)
      requires Valid() && writeopen && p !in writers
      modifies this`nwrite, this`written, this`readers, this`writers, data
      ensures Valid() && (View(), outcome, i) == Wrote(old(View()), p, bytes, killed)
      ensures i <= |bytes| && written == old(written) + bytes[..i]
      ensures outcome == Returned <==> |old(written)| + |bytes| <= |consumed| + PIPESIZE
      ensures outcome == Returned ==> i == |bytes| && readers == {} && writers == old(writers)
      ensures outcome != Returned ==> i < |bytes| && |written| == |consumed| + PIPESIZE
      ensures outcome != Returned ==> (outcome == Asleep <==> readopen && !killed)
      ensures outcome == Asleep ==> readers == {} && writers == old(writers) + {p}
    {
      i := 0;
      while i < |bytes|
        invariant 0 <= i <= |bytes| && Valid()
        invariant written == old(written) + bytes[..i]
        invariant readers == old(readers) && writers == old(writers)
      {
        Wrapping(|consumed|, |written|);
        if nwrite == (nread + PIPESIZE) % WORD_LIMIT {
          if !readopen || killed {
            return Failed, i;
          }
          readers := {};
          writers := writers + {p};
          return Asleep, i;
        }
        Store(bytes[i]);
        i := i + 1;
      }
      assert bytes[..i] == bytes;
      readers := {};
      return Returned, i;
    }

    /** p->data[p->nwrite++ % PIPESIZE] = c. */
    method Store(c: Byte)
      requires Valid() && |written| < |consumed| + PIPESIZE
      modifies this`nwrite, this`written, data
      ensures Valid() && written == old(written) + [c]
    {
      ghost var k := |written|;
      SlotOf(k);
      NextCount(k);
      data[nwrite % PIPESIZE] := c;
      nwrite := (nwrite + 1) % WORD_LIMIT;
      written := written + [c];
      forall j | |consumed| <= j < k
        ensures data[j % PIPESIZE] == written[j]
      {
        SlotsApart(j, k);
      }
      assert consumed == written[..|consumed|];
    }

    /** piperead by `p`, from where it has the lock to where it gives it up. */
    method Read(p: nat, n: nat, killed: bool) returns (outcome: Outcome, bytes: seq<Byte>)
      requires Valid() && readopen && p !in readers
      modifies this`nread, this`consumed, this`readers, this`writers
      ensures Valid() && (View(), outcome, bytes) == Took(old(View()), p, n, killed)
      ensures outcome != Returned <==> |written| == |old(consumed)| && writeopen
      ensures outcome != Returned ==> (outcome == Failed <==> killed) && bytes == [] && consumed == old(consumed)
      ensures outcome == Asleep ==> readers == old(readers) + {p} && writers == old(writers)
      ensures outcome == Returned ==> bytes <= written[|old(consumed)|..] && consumed == old(consumed) + bytes
      ensures outcome == Returned ==> |bytes| <= n && (|bytes| == n || consumed == written)
      ensures outcome == Returned && n > 0 && bytes == [] ==> !writeopen && consumed == written
      ensures outcome == Returned ==> readers == old(readers) && writers == {}
    {
      Wrapping(|consumed|, |written|);
      if nread == nwrite && writeopen {
        if killed {
          return Failed, [];
        }
        readers := readers + {p};
        return Asleep, [];
      }
      bytes := [];
      while |bytes| < n
        invariant Valid() && |bytes| <= n
        invariant consumed == old(consumed) + bytes
        invariant readers == old(readers)
        decreases n - |bytes|
      {
        Wrapping(|consumed|, |written|);
        if nread == nwrite {
          break;
        }
        var c := Take();
        bytes := bytes + [c];
      }
      assert consumed <= written && bytes == consumed[|old(consumed)|..] == written[|old(consumed)|..|consumed|];
      writers := {};
      return Returned, bytes;
    }

    /** p->data[p->nread++ % PIPESIZE]. */
    method Take() returns (c: Byte)
      requires Valid() && |consumed| < |written|
      modifies this`nread, this`consumed
      ensures Valid() && consumed == old(consumed) + [c] && c == written[|old(consumed)|]
    {
      SlotOf(|consumed|);
      NextCount(|consumed|);
      c := data[nread % PIPESIZE];
      nread := (nread + 1) % WORD_LIMIT;
      consumed := consumed + [c];
    }

    /** pipeclose, called when no process has that end open any more. */
    method Close(writable: bool)
      requires Valid() && (if writable then writers == {} else readers == {})
      modifies this`readopen, this`writeopen, this`readers, this`writers
      ensures Valid() && View() == Closed(old(View()), writable)
      ensures if writable then !writeopen && readers == {} && readopen == old(readopen) && writers == old(writers)
              else !readopen && writers == {} && writeopen == old(writeopen) && readers == old(readers)
    {
      if writable {
        writeopen := false;
        readers := {};
      } else {
        readopen := false;
        writers := {};
      }
    }
  }
}
