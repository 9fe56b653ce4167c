/** The redo log of log.c: what every disk write of commit() and
    recover_from_log() leaves behind, and why a crash between any two of them
    loses no transaction and half-applies none. */
module Log {
  import opened Common
  import opened Blocks

  const LOGSIZE: nat := 30

  /** Where the log lives: header block `start`, log blocks `start+1 ..`. */
  datatype Geometry = Geometry(start: nat, size: nat)

  predicate InLog(g: Geometry, b: nat) {
    g.start <= b < g.start + g.size
  }

  predicate ValidDisk(g: Geometry, d: Disk) {
    1 <= g.size && g.start + g.size <= |d| <= WORD_LIMIT
  }

  /** A list of home blocks that fits the log: each is a real block outside the
      log region, and none is listed twice (log absorption keeps it so). */
  ghost predicate ValidBlocks(g: Geometry, d: Disk, bl: seq<nat>) {
    && |bl| <= LOGSIZE && |bl| < g.size
    && (forall i :: 0 <= i < |bl| ==> bl[i] < |d| && !InLog(g, bl[i]))
    && (forall i, j :: 0 <= i < j < |bl| ==> bl[i] != bl[j])
  }

  // ---------------------------------------------------------------- header

  /** The first `n` block numbers of a header block. */
  function HeaderBlocks(h: Block, n: nat): (bl: seq<nat>)
    requires n <= LOGSIZE
    ensures |bl| == n
  {
    seq(n, i requires 0 <= i < n => Word(h, i + 1))
  }

  /** A header block after write_head has stored the count and `i` entries. */
  function FillHeader(h: Block, bl: seq<nat>, i: nat): (r: Block)
    requires i <= |bl| <= LOGSIZE
    requires forall k :: 0 <= k < |bl| ==> bl[k] < WORD_LIMIT
  {
    PutWords(SetWord(h, 0, |bl|), 1, bl, i)
  }

  lemma FilledHeader(h: Block, bl: seq<nat>)
    requires |bl| <= LOGSIZE
    requires forall k :: 0 <= k < |bl| ==> bl[k] < WORD_LIMIT
    ensures Word(FillHeader(h, bl, |bl|), 0) == |bl|
    ensures HeaderBlocks(FillHeader(h, bl, |bl|), |bl|) == bl
  {
    WordOfSetWord(h, 0, |bl|);
    WordsOfPutWords(SetWord(h, 0, |bl|), 1, bl, |bl|);
  }

  /** The transaction the on-disk header names; `[]` is the empty log. */
  function Committed(g: Geometry, d: Disk): (bl: seq<nat>)
    requires ValidDisk(g, d) && Word(d[g.start], 0) <= LOGSIZE
  {
    HeaderBlocks(d[g.start], Word(d[g.start], 0))
  }

  /** write_head() as one disk write. */
  function PutHead(g: Geometry, d: Disk, bl: seq<nat>): (r: Disk)
    requires ValidDisk(g, d) && ValidBlocks(g, d, bl)
  {
    d[g.start := FillHeader(d[g.start], bl, |bl|)]
  }

  lemma CommittedAfterPutHead(g: Geometry, d: Disk, bl: seq<nat>)
    requires ValidDisk(g, d) && ValidBlocks(g, d, bl)
    ensures ValidDisk(g, PutHead(g, d, bl))
    ensures Word(PutHead(g, d, bl)[g.start], 0) == |bl|
    ensures Committed(g, PutHead(g, d, bl)) == bl
  {
    FilledHeader(d[g.start], bl);
  }

  /** A disk the log code accepts: its header names a valid transaction. */
  ghost predicate LogOk(g: Geometry, d: Disk) {
    && ValidDisk(g, d)
    && Word(d[g.start], 0) <= LOGSIZE
    && ValidBlocks(g, d, Committed(g, d))
  }

  // --------------------------------------------------------- install_trans

  /** The disk after install_trans has copied its first `t` log blocks home. */
  function Install(g: Geometry, d: Disk, bl: seq<nat>, t: nat): (r: Disk)
    requires ValidDisk(g, d) && t <= |bl| < g.size
    requires forall i :: 0 <= i < |bl| ==> bl[i] < |d|
    ensures |r| == |d|
  {
    if t == 0 then d
    else
      var p := Install(g, d, bl, t - 1);
      p[bl[t - 1] := p[g.start + t]]
  }

  lemma {:induction false} InstallAt(g: Geometry, d: Disk, bl: seq<nat>, t: nat)
    requires ValidDisk(g, d) && ValidBlocks(g, d, bl) && t <= |bl|
    ensures forall i :: 0 <= i < t ==> Install(g, d, bl, t)[bl[i]] == d[g.start + 1 + i]
    ensures forall b :: 0 <= b < |d| && b !in bl[..t] ==> Install(g, d, bl, t)[b] == d[b]
  {
    if t > 0 {
      InstallAt(g, d, bl, t - 1);
      var p := Install(g, d, bl, t - 1);
      assert bl[..t] == bl[..t - 1] + [bl[t - 1]];
      assert InLog(g, g.start + t);
      assert g.start + t !in bl[..t - 1];
      assert p[g.start + t] == d[g.start + t];
    }
  }

  lemma InstallKeepsLog(g: Geometry, d: Disk, bl: seq<nat>, t: nat)
    requires ValidDisk(g, d) && ValidBlocks(g, d, bl) && t <= |bl|
    ensures forall b :: 0 <= b < |d| && InLog(g, b) ==> Install(g, d, bl, t)[b] == d[b]
  {
    InstallAt(g, d, bl, t);
    forall b | 0 <= b < |d| && InLog(g, b)
      ensures b !in bl[..t]
    {
    }
  }

  /** Installing again over a partial installation ends on the same disk. */
  lemma InstallAgain(g: Geometry, d: Disk, bl: seq<nat>, t: nat)
    requires ValidDisk(g, d) && ValidBlocks(g, d, bl) && t <= |bl|
    ensures Install(g, Install(g, d, bl, t), bl, |bl|) == Install(g, d, bl, |bl|)
  {
    var p := Install(g, d, bl, t);
    InstallAt(g, d, bl, t);
    InstallAt(g, d, bl, |bl|);
    InstallAt(g, p, bl, |bl|);
    InstallKeepsLog(g, d, bl, t);
    var x, y := Install(g, p, bl, |bl|), Install(g, d, bl, |bl|);
    forall b | 0 <= b < |d|
      ensures x[b] == y[b]
    {
      if b in bl {
        var i :| 0 <= i < |bl| && bl[i] == b;
        assert InLog(g, g.start + 1 + i);
      } else {
        assert bl[..|bl|] == bl;
        assert b !in bl[..t];
      }
    }
  }

  // -------------------------------------------------------------- recovery

  /** What recover_from_log leaves on disk. */
  function Recovered(g: Geometry, d: Disk): (r: Disk)
    requires LogOk(g, d)
  {
    var bl := Committed(g, d);
    PutHead(g, Install(g, d, bl, |bl|), [])
  }

  /** Every disk a crash inside recover_from_log can leave, in write order. */
  function RecoveryPoints(g: Geometry, d: Disk): (ps: seq<Disk>)
    requires LogOk(g, d)
  {
    var bl := Committed(g, d);
    InstallPoints(g, d, bl) + [Recovered(g, d)]
  }

  function InstallPoints(g: Geometry, d: Disk, bl: seq<nat>): (ps: seq<Disk>)
    requires ValidDisk(g, d) && ValidBlocks(g, d, bl)
    ensures |ps| == |bl| + 1
  {
    seq(|bl| + 1, t requires 0 <= t <= |bl| => Install(g, d, bl, t))
  }

  lemma PartlyInstalled(g: Geometry, d: Disk, t: nat)
    requires LogOk(g, d) && t <= |Committed(g, d)|
    ensures var p := Install(g, d, Committed(g, d), t);
            LogOk(g, p) && Committed(g, p) == Committed(g, d) && Recovered(g, p) == Recovered(g, d)
  {
    var bl := Committed(g, d);
    InstallKeepsLog(g, d, bl, t);
    assert InLog(g, g.start);
    InstallAgain(g, d, bl, t);
  }

  lemma FullyRecovered(g: Geometry, d: Disk)
    requires LogOk(g, d)
    ensures LogOk(g, Recovered(g, d)) && Committed(g, Recovered(g, d)) == []
    ensures Recovered(g, Recovered(g, d)) == Recovered(g, d)
  {
    var bl := Committed(g, d);
    var p := Install(g, d, bl, |bl|);
    var r := Recovered(g, d);
    CommittedAfterPutHead(g, p, []);
    var h := FillHeader(p[g.start], [], 0);
    ClearTwice(p[g.start]);
    assert Recovered(g, r) == r[g.start := FillHeader(r[g.start], [], 0)];
    assert r == p[g.start := h];
  }

  lemma ClearTwice(h: Block)
    ensures FillHeader(FillHeader(h, [], 0), [], 0) == FillHeader(h, [], 0)
  {
  }

  /** A crash anywhere inside recovery leaves a disk from which recovery
      reaches exactly the disk the interrupted recovery was heading for. */
  lemma RecoveryIsRestartable(g: Geometry, d: Disk, k: nat)
    requires LogOk(g, d) && k < |RecoveryPoints(g, d)|
    ensures LogOk(g, RecoveryPoints(g, d)[k])
    ensures Recovered(g, RecoveryPoints(g, d)[k]) == Recovered(g, d)
  {
    if k <= |Committed(g, d)| {
      PartlyInstalled(g, d, k);
    } else {
      FullyRecovered(g, d);
    }
  }

  /** A run of reboots: each disk is a crash point of recovering the one before. */
  ghost predicate Reboots(g: Geometry, ds: seq<Disk>) {
    && |ds| > 0
    && forall i :: 0 <= i < |ds| - 1 ==> LogOk(g, ds[i]) && ds[i + 1] in RecoveryPoints(g, ds[i])
  }

  /** However many times recovery is cut short, rerunning it gives the same disk. */
  lemma {:induction false} RebootsConverge(g: Geometry, ds: seq<Disk>)
    requires Reboots(g, ds) && LogOk(g, ds[0])
    ensures LogOk(g, ds[|ds| - 1])
    ensures Recovered(g, ds[|ds| - 1]) == Recovered(g, ds[0])
  {
    if |ds| > 1 {
      var k :| 0 <= k < |RecoveryPoints(g, ds[0])| && RecoveryPoints(g, ds[0])[k] == ds[1];
      RecoveryIsRestartable(g, ds[0], k);
      forall i | 0 <= i < |ds[1..]| - 1
        ensures LogOk(g, ds[1..][i]) && ds[1..][i + 1] in RecoveryPoints(g, ds[1..][i])
      {
        assert ds[1..][i] == ds[i + 1] && ds[1..][i + 1] == ds[i + 2];
      }
      RebootsConverge(g, ds[1..]);
    }
  }

  // ---------------------------------------------------------------- commit

  /** The disk after write_log has copied its first `t` cached blocks. */
  function LogWritten(g: Geometry, d: Disk, bl: seq<nat>, cache: map<nat, Block>, t: nat): (r: Disk)
    requires ValidDisk(g, d) && t <= |bl| < g.size
    requires forall i :: 0 <= i < |bl| ==> bl[i] in cache
    ensures |r| == |d|
  {
    if t == 0 then d else LogWritten(g, d, bl, cache, t - 1)[g.start + t := cache[bl[t - 1]]]
  }

  lemma {:induction false} LogWrittenAt(g: Geometry, d: Disk, bl: seq<nat>, cache: map<nat, Block>, t: nat)
    requires ValidDisk(g, d) && t <= |bl| < g.size
    requires forall i :: 0 <= i < |bl| ==> bl[i] in cache
    ensures forall i :: 0 <= i < t ==> LogWritten(g, d, bl, cache, t)[g.start + 1 + i] == cache[bl[i]]
    ensures forall b :: 0 <= b < |d| && !(g.start < b <= g.start + t) ==> LogWritten(g, d, bl, cache, t)[b] == d[b]
  {
    if t > 0 {
      LogWrittenAt(g, d, bl, cache, t - 1);
    }
  }

  /** The disk at the commit point: log blocks and header written. */
  function AtCommitPoint(g: Geometry, d: Disk, bl: seq<nat>, cache: map<nat, Block>): (r: Disk)
    requires ValidDisk(g, d) && ValidBlocks(g, d, bl)
    requires forall i :: 0 <= i < |bl| ==> bl[i] in cache
  {
    PutHead(g, LogWritten(g, d, bl, cache, |bl|), bl)
  }

  function LogWritePoints(g: Geometry, d: Disk, bl: seq<nat>, cache: map<nat, Block>): (ps: seq<Disk>)
    requires ValidDisk(g, d) && ValidBlocks(g, d, bl)
    requires forall i :: 0 <= i < |bl| ==> bl[i] in cache
    ensures |ps| == |bl| + 1
  {
    seq(|bl| + 1, t requires 0 <= t <= |bl| => LogWritten(g, d, bl, cache, t))
  }

  /** Every disk a crash inside commit() can leave, in write order: the log
      blocks, the header (the commit point), the installation, the clear. */
  function CommitPoints(g: Geometry, d: Disk, bl: seq<nat>, cache: map<nat, Block>): (ps: seq<Disk>)
    requires ValidDisk(g, d) && ValidBlocks(g, d, bl)
    requires forall i :: 0 <= i < |bl| ==> bl[i] in cache
  {
    var c := AtCommitPoint(g, d, bl, cache);
    LogWritePoints(g, d, bl, cache) + InstallPoints(g, c, bl) + [PutHead(g, Install(g, c, bl, |bl|), [])]
  }

  /** `r` agrees with `d` on every home block: the transaction never happened. */
  ghost predicate AllOld(g: Geometry, d: Disk, r: Disk) {
    |r| == |d| && forall b :: 0 <= b < |d| && !InLog(g, b) ==> r[b] == d[b]
  }

  /** `r` holds every block of the transaction and is otherwise `d`. */
  ghost predicate AllNew(g: Geometry, d: Disk, bl: seq<nat>, cache: map<nat, Block>, r: Disk) {
    |r| == |d| && forall b :: 0 <= b < |d| && !InLog(g, b) ==>
      r[b] == if b in bl && b in cache then cache[b] else d[b]
  }

  /** Before the header write, recovery undoes the transaction entirely. */
  lemma CrashBeforeCommitPoint(g: Geometry, d: Disk, bl: seq<nat>, cache: map<nat, Block>, t: nat)
    requires LogOk(g, d) && Committed(g, d) == [] && ValidBlocks(g, d, bl) && t <= |bl|
    requires forall i :: 0 <= i < |bl| ==> bl[i] in cache
    ensures LogOk(g, LogWritten(g, d, bl, cache, t))
    ensures AllOld(g, d, Recovered(g, LogWritten(g, d, bl, cache, t)))
  {
    LogWrittenAt(g, d, bl, cache, t);
  }

  lemma CommitPointBlocks(g: Geometry, d: Disk, bl: seq<nat>, cache: map<nat, Block>)
    requires ValidDisk(g, d) && ValidBlocks(g, d, bl)
    requires forall i :: 0 <= i < |bl| ==> bl[i] in cache
    ensures var c := AtCommitPoint(g, d, bl, cache);
            && LogOk(g, c) && Committed(g, c) == bl
            && (forall i :: 0 <= i < |bl| ==> c[g.start + 1 + i] == cache[bl[i]])
            && (forall b :: 0 <= b < |d| && !InLog(g, b) ==> c[b] == d[b])
  {
    LogWrittenAt(g, d, bl, cache, |bl|);
    CommittedAfterPutHead(g, LogWritten(g, d, bl, cache, |bl|), bl);
  }

  /** From the header write on, recovery completes the transaction entirely. */
  lemma AtCommitPointIsNew(g: Geometry, d: Disk, bl: seq<nat>, cache: map<nat, Block>)
    requires ValidDisk(g, d) && ValidBlocks(g, d, bl)
    requires forall i :: 0 <= i < |bl| ==> bl[i] in cache
    ensures var c := AtCommitPoint(g, d, bl, cache);
            LogOk(g, c) && Committed(g, c) == bl && AllNew(g, d, bl, cache, Recovered(g, c))
  {
    var c := AtCommitPoint(g, d, bl, cache);
    CommitPointBlocks(g, d, bl, cache);
    InstallAt(g, c, bl, |bl|);
    assert bl[..|bl|] == bl;
    var p := Install(g, c, bl, |bl|);
    forall b | 0 <= b < |d| && !InLog(g, b)
      ensures p[b] == if b in bl && b in cache then cache[b] else d[b]
    {
      if b in bl {
        var i :| 0 <= i < |bl| && bl[i] == b;
      }
    }
    assert InLog(g, g.start);
  }

  /** Crash atomicity: whichever disk a crash inside commit() leaves, and however
      many times recovery is then interrupted, the recovered home blocks are all
      old if the header had not been written and all new if it had. */
  lemma CommitIsAtomic(g: Geometry, d: Disk, bl: seq<nat>, cache: map<nat, Block>, k: nat, ds: seq<Disk>)
    requires LogOk(g, d) && Committed(g, d) == [] && ValidBlocks(g, d, bl)
    requires forall i :: 0 <= i < |bl| ==> bl[i] in cache
    requires k < |CommitPoints(g, d, bl, cache)|
    requires Reboots(g, ds) && ds[0] == CommitPoints(g, d, bl, cache)[k]
    ensures LogOk(g, ds[|ds| - 1])
    ensures k <= |bl| ==> AllOld(g, d, Recovered(g, ds[|ds| - 1]))
    ensures k > |bl| ==> AllNew(g, d, bl, cache, Recovered(g, ds[|ds| - 1]))
  {
    var c := AtCommitPoint(g, d, bl, cache);
    if k <= |bl| {
      CrashBeforeCommitPoint(g, d, bl, cache, k);
    } else {
      AtCommitPointIsNew(g, d, bl, cache);
      assert CommitPoints(g, d, bl, cache)[k] == RecoveryPoints(g, c)[k - |bl| - 1];
      RecoveryIsRestartable(g, c, k - |bl| - 1);
    }
    RebootsConverge(g, ds);
  }

  /** Without a crash commit() ends new, with an empty log. */
  lemma CommitCompletes(g: Geometry, d: Disk, bl: seq<nat>, cache: map<nat, Block>)
    requires LogOk(g, d) && Committed(g, d) == [] && ValidBlocks(g, d, bl)
    requires forall i :: 0 <= i < |bl| ==> bl[i] in cache
    ensures var ps := CommitPoints(g, d, bl, cache); var r := ps[|ps| - 1];
            LogOk(g, r) && Committed(g, r) == [] && AllNew(g, d, bl, cache, r)
  {
    AtCommitPointIsNew(g, d, bl, cache);
    FullyRecovered(g, AtCommitPoint(g, d, bl, cache));
  }

  lemma CommitPointsInOrder(g: Geometry, d: Disk, bl: seq<nat>, cache: map<nat, Block>)
    requires ValidDisk(g, d) && ValidBlocks(g, d, bl)
    requires forall i :: 0 <= i < |bl| ==> bl[i] in cache
    ensures var c := AtCommitPoint(g, d, bl, cache); var ps := CommitPoints(g, d, bl, cache);
            && ps[|ps| - 1] == PutHead(g, Install(g, c, bl, |bl|), [])
            && ps[1..] == LogWritePoints(g, d, bl, cache)[1..] + [c] + InstallPoints(g, c, bl)[1..] + [ps[|ps| - 1]]
  {
    var c := AtCommitPoint(g, d, bl, cache);
    assert InstallPoints(g, c, bl)[0] == c;
    assert [c] + InstallPoints(g, c, bl)[1..] == InstallPoints(g, c, bl);
  }

  ghost function Elements(bl: seq<nat>): set<nat> {
    set b | b in bl
  }

  lemma NextUnpinned(cache: map<nat, Block>, bl: seq<nat>, k: nat)
    requires k < |bl|
    ensures cache - Elements(bl[..k + 1]) == cache - Elements(bl[..k]) - {bl[k]}
  {
    assert bl[..k + 1] == bl[..k] + [bl[k]];
  }

  lemma NothingToCommit(g: Geometry, d: Disk, bl: seq<nat>, cache: map<nat, Block>)
    requires ValidDisk(g, d) && bl == []
    ensures AllNew(g, d, bl, cache, d) && cache - Elements(bl) == cache
  {
  }

  lemma NextPoint(ps: seq<Disk>, k: nat)
    requires 1 <= k < |ps|
    ensures ps[1..k + 1] == ps[1..k] + [ps[k]]
  {
  }

  lemma Associate(a: seq<Disk>, b: seq<Disk>, c: seq<Disk>, d: seq<Disk>, e: seq<Disk>)
    ensures a + b + c + d + e == a + (b + c + d + e)
  {
  }

  // ------------------------------------------------------- log.c, in place

  /** The in-memory log with the disk under it. `cache` holds the buffers that
      log_write has pinned dirty; `points` is the ghost record of every disk
      that has existed, one per block write. */
  class RedoLog {
    const g: Geometry
    const block: array<nat>
    var n: nat
    var disk: Disk
    var cache: map<nat, Block>
    ghost var points: seq<Disk>

    constructor (g: Geometry, disk: Disk)
      requires ValidDisk(g, disk)
      ensures this.g == g && this.disk == disk && n == 0 && cache == map[] && points == [disk]
      ensures Valid() && fresh(block)
    {
      this.g := g;
      this.disk := disk;
      block := new nat[LOGSIZE];
      n := 0;
      cache := map[];
      points := [disk];
    }

    ghost predicate Valid()
      reads this
    {
      block.Length == LOGSIZE && n <= LOGSIZE && ValidDisk(g, disk)
    }

    /** The blocks of the open transaction. */
    ghost function Blocks(): (bl: seq<nat>)
      requires Valid()
      reads this, block
    {
      block[..n]
    }

    /** A transaction commit() may write: listed once each and pinned. */
    ghost predicate Committable()
      requires Valid()
      reads this, block
    {
      ValidBlocks(g, disk, Blocks()) && forall i :: 0 <= i < n ==> block[i] in cache
    }

    /** One synchronous block write; a crash may follow it. */
    method BWrite(b: nat, data: Block)
      requires Valid() && b < |disk|
      modifies this`disk, this`points
      ensures Valid() && disk == old(disk)[b := data]
      ensures points == old(points) + [disk]
    {
      disk := disk[b := data];
      points := points + [disk];
    }

    method ReadHead()
      requires Valid() && LogOk(g, disk)
      modifies this`n, block
      ensures Valid() && Blocks() == Committed(g, disk)
    {
      var h := disk[g.start];
      n := Word(h, 0);
      var i := 0;
      while i < n
        invariant 0 <= i <= n == Word(h, 0)
        invariant forall k :: 0 <= k < i ==> block[k] == Word(h, k + 1)
      {
        block[i] := Word(h, i + 1);
        i := i + 1;
      }
    }

    method WriteHead()
      requires Valid() && ValidBlocks(g, disk, Blocks())
      modifies this`disk, this`points
      ensures Valid() && disk == PutHead(g, old(disk), Blocks())
      ensures points == old(points) + [disk]
    {
      var h := SetWord(disk[g.start], 0, n);
      var i := 0;
      while i < n
        invariant 0 <= i <= n
        invariant h == FillHeader(disk[g.start], Blocks(), i)
      {
        h := SetWord(h, i + 1, block[i]);
        i := i + 1;
      }
      BWrite(g.start, h);
    }

    method InstallTrans()
      requires Valid() && ValidBlocks(g, disk, Blocks())
      modifies this`disk, this`points, this`cache
      ensures Valid() && disk == Install(g, old(disk), Blocks(), n)
      ensures points == old(points) + InstallPoints(g, old(disk), Blocks())[1..]
      ensures cache == old(cache) - Elements(Blocks())
    {
      ghost var bl := Blocks();
      ghost var ps := InstallPoints(g, disk, bl);
      var tail := 0;
      while tail < n
        invariant 0 <= tail <= n && Valid()
        invariant disk == Install(g, old(disk), bl, tail)
        invariant points == old(points) + ps[1..tail + 1]
        invariant cache == old(cache) - Elements(bl[..tail])
      {
        var lbuf := disk[g.start + tail + 1];
        BWrite(block[tail], lbuf);
        cache := cache - {block[tail]};
        NextPoint(ps, tail + 1);
        NextUnpinned(old(cache), bl, tail);
        tail := tail + 1;
      }
      assert ps[1..n + 1] == ps[1..] && bl[..n] == bl;
    }

    /** Recovery at boot goes through exactly the disks of RecoveryPoints. */
    method RecoverFromLog()
      requires Valid() && LogOk(g, disk) && cache == map[]
      modifies this`disk, this`points, this`n, this`cache, block
      ensures Valid() && disk == Recovered(g, old(disk)) && n == 0 && cache == map[]
      ensures points == old(points) + RecoveryPoints(g, old(disk))[1..]
    {
      ReadHead();
      InstallTrans();
      n := 0;
      WriteHead();
    }

    method WriteLog()
      requires Valid() && Committable()
      modifies this`disk, this`points
      ensures Valid() && disk == LogWritten(g, old(disk), Blocks(), cache, n)
      ensures points == old(points) + LogWritePoints(g, old(disk), Blocks(), cache)[1..]
    {
      ghost var bl := Blocks();
      ghost var ps := LogWritePoints(g, disk, bl, cache);
      var tail := 0;
      while tail < n
        invariant 0 <= tail <= n && Valid()
        invariant disk == LogWritten(g, old(disk), bl, cache, tail)
        invariant points == old(points) + ps[1..tail + 1]
      {
        var from := cache[block[tail]];
        BWrite(g.start + tail + 1, from);
        NextPoint(ps, tail + 1);
        tail := tail + 1;
      }
      assert ps[1..n + 1] == ps[1..];
    }

    /** commit() goes through exactly the disks of CommitPoints, and ends with
        every logged block home, nothing pinned and an empty log. */
    method Commit()
      requires Valid() && LogOk(g, disk) && Committed(g, disk) == [] && Committable()
      modifies this`disk, this`points, this`n, this`cache
      ensures Valid() && n == 0 && cache == old(cache) - Elements(old(Blocks()))
      ensures LogOk(g, disk) && Committed(g, disk) == []
      ensures AllNew(g, old(disk), old(Blocks()), old(cache), disk)
      ensures points == old(points) +
              if old(n) == 0 then [] else CommitPoints(g, old(disk), old(Blocks()), old(cache))[1..]
    {
      ghost var d, bl, ca := disk, Blocks(), cache;
      hide LogOk, AllNew, CommitPoints, Install, Elements;
      if n > 0 {
        CommitCompletes(g, d, bl, ca);
        WriteTransaction();
      } else {
        NothingToCommit(g, d, bl, ca);
      }
    }

    /** The writes of commit. */
    method WriteTransaction()
      requires Valid() && Committable()
      modifies this`disk, this`points, this`n, this`cache
      ensures Valid() && n == 0 && cache == old(cache) - Elements(old(Blocks()))
      ensures var ps := CommitPoints(g, old(disk), old(Blocks()), old(cache));
              disk == ps[|ps| - 1] && points == old(points) + ps[1..]
    {
      ghost var d, bl, ca := disk, Blocks(), cache;
      ghost var c := AtCommitPoint(g, d, bl, ca);
      hide CommitPoints, Install, LogWritten, FillHeader, Elements;
      WriteLog();
      WriteHead();
      assert disk == c;
      InstallTrans();
      n := 0;
      WriteHead();
      CommitPointsInOrder(g, d, bl, ca);
      Associate(old(points), LogWritePoints(g, d, bl, ca)[1..], [c], InstallPoints(g, c, bl)[1..], [disk]);
    }

    /** log_write(): absorbs a block already in the transaction, else appends
        it. `ok` is false where the source panics. */
    method LogWrite(outstanding: nat, b: nat, data: Block) returns (ok: bool)
      requires Valid() && Committable()
      requires b < |disk| && !InLog(g, b)
      modifies this`n, this`cache, block
      ensures Valid() && Committable()
      ensures ok <==> old(n) < LOGSIZE && old(n) < g.size - 1 && outstanding >= 1
      ensures !ok ==> cache == old(cache) && Blocks() == old(Blocks())
      ensures ok ==> cache == old(cache)[b := data]
      ensures ok ==> Blocks() == if b in old(Blocks()) then old(Blocks()) else old(Blocks()) + [b]
    {
      if n >= LOGSIZE || n >= g.size - 1 {
        return false;
      }
      if outstanding < 1 {
        return false;
      }
      var i := 0;
      while i < n && block[i] != b
        invariant 0 <= i <= n
        invariant forall k :: 0 <= k < i ==> block[k] != b
      {
        i := i + 1;
      }
      ghost var before := Blocks();
      block[i] := b;
      if i == n {
        n := n + 1;
        assert Blocks() == before + [b];
      } else {
        assert Blocks() == before;
      }
      cache := cache[b := data];
      ok := true;
    }
  }
}
