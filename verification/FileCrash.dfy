/** A crash in the middle of filewrite, from the file's bytes down to the disk's
    blocks: the file system of fs.c over the log of log.c. */
module FileCrash {
  import opened Common
  import opened Blocks
  import opened FsState
  import opened FileSys
  import Log
  import LogOps

  /** mkfs puts the log below the inodes. */
  predicate LogBelow(g: Log.Geometry, sb: Super) {
    g.start + g.size <= sb.inodestart
  }

  /** The file system as it is read from disk after a boot. */
  function Reload(sb: Super, d: Disk): Fs
    requires ValidSuper(sb) && |d| == sb.size
  {
    Fs(sb, d, seq(sb.ninodes, x requires 0 <= x < sb.ninodes => IBlockInTable(sb, x); DecodeInode(d[IBlock(sb, x)], x % IPB)))
  }

  /** No in-core inode is ahead of the disk. */
  ghost predicate AllSynced(fs: Fs) {
    Shape(fs) && forall x :: 0 <= x < |fs.inodes| ==> Synced(fs, x)
  }

  /** The same inodes, and the same bytes in every file. */
  ghost predicate SameFiles(s: Snapshot, fs: Fs) {
    && fs.sb == s.fs.sb && fs.inodes == s.fs.inodes && AllSynced(fs) && Inv(s.fs, s.owner) && Inv(fs, s.owner)
    && forall x, h :: Extent(s.fs, x, h) ==> Extent(fs, x, h) && Bytes(fs, s.owner, x, h) == Bytes(s.fs, s.owner, x, h)
  }

  lemma ReloadInodes(g: Log.Geometry, fs: Fs, d: Disk)
    requires AllSynced(fs) && LogBelow(g, fs.sb) && Log.AllOld(g, fs.blocks, d)
    ensures Reload(fs.sb, d).inodes == fs.inodes && AllSynced(Reload(fs.sb, d))
  {
    var f := Reload(fs.sb, d);
    hide DecodeInode;
    forall x | 0 <= x < |fs.inodes|
      ensures f.inodes[x] == fs.inodes[x]
    {
      IBlockInTable(fs.sb, x);
      assert Synced(fs, x);
    }
    assert f.inodes == fs.inodes;
  }

  /** Two file systems that differ only in the log hold the same files. */
  lemma OutsideLog(g: Log.Geometry, fs: Fs, owner: map<nat, Slot>, fs': Fs)
    requires Inv(fs, owner) && LogBelow(g, fs.sb) && Log.AllOld(g, fs.blocks, fs'.blocks)
    requires fs'.sb == fs.sb && fs'.inodes == fs.inodes
    ensures Inv(fs', owner)
    ensures forall x, h :: Extent(fs, x, h) ==> Extent(fs', x, h) && Bytes(fs', owner, x, h) == Bytes(fs, owner, x, h)
  {
    hide At, Bit;
    OwnedByData(fs, fs', owner);
    forall b | 0 <= b < fs.sb.size
      ensures Used(fs', b) == Used(fs, b)
    {
      BBlockInBitmap(fs.sb, b);
    }
    forall x, h | Extent(fs, x, h)
      ensures Extent(fs', x, h) && Bytes(fs', owner, x, h) == Bytes(fs, owner, x, h)
    {
      assert FileKept(fs, owner, fs', x);
      SameBytes(fs, owner, fs', owner, x, h);
    }
  }

  lemma ReloadSame(g: Log.Geometry, s: Snapshot, d: Disk)
    requires Inv(s.fs, s.owner) && AllSynced(s.fs) && LogBelow(g, s.fs.sb) && Log.AllOld(g, s.fs.blocks, d)
    ensures SameFiles(s, Reload(s.fs.sb, d))
  {
    ReloadInodes(g, s.fs, d);
    OutsideLog(g, s.fs, s.owner, Reload(s.fs.sb, d));
  }

  // -------------------------------------------------------------- filewrite

  /** One commit: the blocks in the order they were logged, and the cached data. */
  datatype Commit = Commit(bl: seq<nat>, cache: map<nat, Block>)

  /** Commit `m` takes the file system's blocks from `d` to `d'`, changing `log`. */
  ghost predicate Logs(g: Log.Geometry, m: Commit, d: Disk, d': Disk, log: set<nat>) {
    && Log.ValidBlocks(g, d, m.bl) && |d'| == |d| && (forall b :: b in m.bl <==> b in log)
    && forall b :: b in m.bl ==> b in m.cache && b < |d| && m.cache[b] == d'[b]
  }

  /** The disk before each operation of a filewrite, each committed on its own. */
  ghost predicate Journal(g: Log.Geometry, disks: seq<Disk>, commits: seq<Commit>, states: seq<Snapshot>, ops: seq<set<nat>>) {
    && |disks| == |states| == |ops| + 1 && |commits| == |ops|
    && Log.LogOk(g, disks[0]) && Log.Committed(g, disks[0]) == [] && Log.AllOld(g, states[0].fs.blocks, disks[0])
    && forall c :: 0 <= c < |ops| ==>
         Logs(g, commits[c], states[c].fs.blocks, states[c + 1].fs.blocks, ops[c]) && Next(g, disks[c], commits[c], disks[c + 1])
  }

  /** What a commit that is not interrupted leaves. */
  ghost predicate Next(g: Log.Geometry, d: Disk, m: Commit, d': Disk) {
    && Log.ValidDisk(g, d) && Log.ValidBlocks(g, d, m.bl) && (forall j :: 0 <= j < |m.bl| ==> m.bl[j] in m.cache)
    && var ps := Log.CommitPoints(g, d, m.bl, m.cache); d' == ps[|ps| - 1]
  }

  /** File system states in a row, each of which changes only what it logs. */
  ghost predicate InSteps(states: seq<Snapshot>, ops: seq<set<nat>>) {
    && |states| == |ops| + 1
    && forall c :: 0 <= c < |ops| ==> Changed(states[0].fs.sb, states[c].fs.blocks, states[c + 1].fs.blocks, ops[c])
  }

  /** The new blocks on disk are the file system's new blocks. */
  lemma NewIsNext(g: Log.Geometry, sb: Super, a: Disk, a': Disk, log: set<nat>, m: Commit, d: Disk, d': Disk)
    requires Changed(sb, a, a', log) && Logs(g, m, a, a', log)
    requires Log.AllOld(g, a, d) && Log.AllNew(g, d, m.bl, m.cache, d')
    ensures Log.AllOld(g, a', d')
  {
  }

  lemma {:induction false} DiskFollows(g: Log.Geometry, disks: seq<Disk>, commits: seq<Commit>, states: seq<Snapshot>,
                                       ops: seq<set<nat>>, c: nat)
    requires InSteps(states, ops) && Journal(g, disks, commits, states, ops) && c <= |ops|
    ensures Log.LogOk(g, disks[c]) && Log.Committed(g, disks[c]) == [] && Log.AllOld(g, states[c].fs.blocks, disks[c])
  {
    hide Changed, Logs, Log.LogOk, Log.AllOld, Log.AllNew, Log.CommitPoints;
    if c > 0 {
      DiskFollows(g, disks, commits, states, ops, c - 1);
      var m := commits[c - 1];
      assert Next(g, disks[c - 1], m, disks[c - 1 + 1]);
      Log.CommitCompletes(g, disks[c - 1], m.bl, m.cache);
      NewIsNext(g, states[0].fs.sb, states[c - 1].fs.blocks, states[c - 1 + 1].fs.blocks, ops[c - 1], m, disks[c - 1], disks[c]);
    }
  }

  /** A crash in the `c`-th commit and any reboots leave, outside the log, the blocks
      from before it or from after it. */
  lemma CrashInCommit(g: Log.Geometry, disks: seq<Disk>, commits: seq<Commit>, states: seq<Snapshot>, ops: seq<set<nat>>,
                      c: nat, p: nat, ds: seq<Disk>)
    requires InSteps(states, ops) && Journal(g, disks, commits, states, ops)
    requires c < |ops| && LogOps.Crashed(g, disks[c], commits[c].bl, commits[c].cache, p, ds)
    ensures Log.LogOk(g, ds[|ds| - 1])
    ensures Log.AllOld(g, states[if p <= |commits[c].bl| then c else c + 1].fs.blocks, Log.Recovered(g, ds[|ds| - 1]))
  {
    hide Changed, Logs, Log.LogOk, Log.AllOld, Log.AllNew, Log.CommitPoints, Log.Recovered;
    var m := commits[c];
    DiskFollows(g, disks, commits, states, ops, c);
    Log.CommitIsAtomic(g, disks[c], m.bl, m.cache, p, ds);
    var r := Log.Recovered(g, ds[|ds| - 1]);
    if p <= |m.bl| {
      OldTwice(g, states[c].fs.blocks, disks[c], r);
    } else {
      NewIsNext(g, states[0].fs.sb, states[c].fs.blocks, states[c + 1].fs.blocks, ops[c], m, disks[c], r);
    }
  }

  lemma TrailSynced(states: seq<Snapshot>, ops: seq<set<nat>>, i: nat, off0: nat, data: seq<Byte>, k: nat, c: nat)
    requires Trail(states, ops, i, off0, data, k) && c < |states|
    requires Inv(states[0].fs, states[0].owner) && AllSynced(states[0].fs)
    ensures Inv(states[c].fs, states[c].owner) && AllSynced(states[c].fs)
  {
    hide Inv, At, Synced, Bytes, Extent, Changed;
    var f0, o0, s := states[0].fs, states[0].owner, states[c];
    assert Progress(f0, o0, s.fs, s.owner, i, off0, data, Min(c * CHUNK, k));
    InvShape(f0, o0);
    if off0 <= f0.inodes[i].size {
      InvShape(s.fs, s.owner);
    }
  }

  /** A file system with the same files has the same bytes spliced in. */
  lemma SplicedSame(f0: Fs, o0: map<nat, Slot>, s: Snapshot, fs: Fs, i: nat, src: seq<Byte>, off0: nat)
    requires Spliced(f0, o0, s.fs, s.owner, i, src, off0) && SameFiles(s, fs)
    ensures Spliced(f0, o0, fs, s.owner, i, src, off0)
  {
    hide Inv, At, Synced, Bytes, Extent;
  }

  /** The file system read from disk `r` is the `done`-th one of a filewrite: the file
      holds its old bytes with `done` chunks (or all that was written) spliced in, and
      every other file is as it was. */
  ghost predicate Survived(states: seq<Snapshot>, i: nat, off0: nat, data: seq<Byte>, k: nat, done: nat, r: Disk) {
    && done < |states| && k <= |data| && ValidSuper(states[0].fs.sb) && |r| == states[0].fs.sb.size && i < |states[0].fs.inodes|
    && var f := Reload(states[0].fs.sb, r);
    && SameFiles(states[done], f)
    && (off0 <= states[0].fs.inodes[i].size ==>
          Spliced(states[0].fs, states[0].owner, f, states[done].owner, i, data[..Min(done * CHUNK, k)], off0))
  }

  lemma SurvivedAt(g: Log.Geometry, states: seq<Snapshot>, ops: seq<set<nat>>, i: nat, off0: nat, data: seq<Byte>, k: nat,
                   done: nat, r: Disk)
    requires Trail(states, ops, i, off0, data, k) && done < |states| && k <= |data|
    requires Inv(states[0].fs, states[0].owner) && AllSynced(states[0].fs) && LogBelow(g, states[0].fs.sb)
    requires Log.AllOld(g, states[done].fs.blocks, r)
    ensures Survived(states, i, off0, data, k, done, r)
  {
    hide Inv, At, Bytes, Extent, Changed, Spliced, SameFiles, AllSynced, Reload;
    TrailSynced(states, ops, i, off0, data, k, done);
    InvShape(states[done].fs, states[done].owner);
    ReloadSame(g, states[done], r);
    assert Progress(states[0].fs, states[0].owner, states[done].fs, states[done].owner, i, off0, data, Min(done * CHUNK, k));
    if off0 <= states[0].fs.inodes[i].size {
      SplicedSame(states[0].fs, states[0].owner, states[done], Reload(states[0].fs.sb, r), i, data[..Min(done * CHUNK, k)], off0);
    }
  }

  /** A crash at any disk write of any of a filewrite's commits, and any number of
      crashes during recovery: once recovery is done, the file system read from disk
      is the one before that commit if the header was not written yet, and else the
      one after it. */
  lemma CrashInFilewrite(g: Log.Geometry, disks: seq<Disk>, commits: seq<Commit>, states: seq<Snapshot>, ops: seq<set<nat>>,
                         i: nat, off0: nat, data: seq<Byte>, k: nat, c: nat, p: nat, ds: seq<Disk>)
    requires Trail(states, ops, i, off0, data, k) && Journal(g, disks, commits, states, ops) && k <= |data|
    requires Inv(states[0].fs, states[0].owner) && AllSynced(states[0].fs) && LogBelow(g, states[0].fs.sb)
    requires c < |ops| && LogOps.Crashed(g, disks[c], commits[c].bl, commits[c].cache, p, ds)
    ensures Log.LogOk(g, ds[|ds| - 1])
    ensures Survived(states, i, off0, data, k, if p <= |commits[c].bl| then c else c + 1, Log.Recovered(g, ds[|ds| - 1]))
  {
    hide Inv, Changed, Survived, AllSynced, Log.LogOk, Log.AllOld, Log.Recovered, Log.CommitPoints, Progress, Logs, Next;
    assert InSteps(states, ops);
    CrashInCommit(g, disks, commits, states, ops, c, p, ds);
    SurvivedAt(g, states, ops, i, off0, data, k, if p <= |commits[c].bl| then c else c + 1, Log.Recovered(g, ds[|ds| - 1]));
  }

  lemma OldTwice(g: Log.Geometry, a: Disk, b: Disk, c: Disk)
    requires Log.AllOld(g, a, b) && Log.AllOld(g, b, c)
    ensures Log.AllOld(g, a, c)
  {
  }

  // ---------------------------------------------- every filewrite commits so

  lemma {:induction false} Listed(log: set<nat>) returns (bl: seq<nat>)
    ensures |bl| == |log| && (forall b :: b in bl <==> b in log) && forall i, j :: 0 <= i < j < |bl| ==> bl[i] != bl[j]
    decreases |log|
  {
    if log == {} {
      bl := [];
    } else {
      var b :| b in log;
      var rest := Listed(log - {b});
      bl := rest + [b];
    }
  }

  lemma OneCommit(g: Log.Geometry, sb: Super, a: Disk, a': Disk, log: set<nat>, d: Disk) returns (m: Commit, d': Disk)
    requires Changed(sb, a, a', log) && |log| <= LogOps.MAXOPBLOCKS < g.size && LogBelow(g, sb)
    requires Log.LogOk(g, d) && Log.AllOld(g, a, d)
    ensures Logs(g, m, a, a', log) && Next(g, d, m, d')
  {
    var bl := Listed(log);
    m := Commit(bl, map b | b in log :: a'[b]);
    forall i | 0 <= i < |bl|
      ensures bl[i] < |a| && !Log.InLog(g, bl[i]) && bl[i] in m.cache
    {
      assert bl[i] in log;
    }
    hide Log.CommitPoints;
    var ps := Log.CommitPoints(g, d, bl, m.cache);
    PointsExist(g, d, bl, m.cache);
    d' := ps[|ps| - 1];
  }

  lemma PointsExist(g: Log.Geometry, d: Disk, bl: seq<nat>, cache: map<nat, Block>)
    requires Log.ValidDisk(g, d) && Log.ValidBlocks(g, d, bl) && forall i :: 0 <= i < |bl| ==> bl[i] in cache
    ensures |Log.CommitPoints(g, d, bl, cache)| > 0
  {
  }

  lemma TrailPrefix(states: seq<Snapshot>, ops: seq<set<nat>>, i: nat, off0: nat, data: seq<Byte>, k: nat, n: nat)
    requires Trail(states, ops, i, off0, data, k) && n <= |ops|
    ensures Trail(states[..n + 1], ops[..n], i, off0, data, k)
  {
    hide Progress, Changed;
  }

  /** Whatever a filewrite does can be committed, one operation after the other. */
  lemma {:induction false} JournalExists(g: Log.Geometry, d: Disk, states: seq<Snapshot>, ops: seq<set<nat>>,
                                         i: nat, off0: nat, data: seq<Byte>, k: nat)
    returns (disks: seq<Disk>, commits: seq<Commit>)
    requires Trail(states, ops, i, off0, data, k) && Bounded(states[0].fs.sb, ops)
    requires LogOps.MAXOPBLOCKS < g.size && LogBelow(g, states[0].fs.sb)
    requires Log.LogOk(g, d) && Log.Committed(g, d) == [] && Log.AllOld(g, states[0].fs.blocks, d)
    ensures Journal(g, disks, commits, states, ops) && disks[0] == d
    decreases |ops|
  {
    hide Progress, Changed, Logs, Next, Log.LogOk, Log.AllOld, LogBelow;
    if ops == [] {
      return [d], [];
    }
    var n := |ops| - 1;
    TrailPrefix(states, ops, i, off0, data, k, n);
    disks, commits := JournalExists(g, d, states[..n + 1], ops[..n], i, off0, data, k);
    assert InSteps(states[..n + 1], ops[..n]);
    DiskFollows(g, disks, commits, states[..n + 1], ops[..n], n);
    var m, d' := OneCommit(g, states[0].fs.sb, states[n].fs.blocks, states[n + 1].fs.blocks, ops[n], disks[n]);
    disks, commits := disks + [d'], commits + [m];
  }

  // ------------------------------------------------ among other operations

  /** One operation: a chunk of this filewrite, or somebody else's. */
  datatype Move = Move(own: bool, log: set<nat>)

  /** How much of `size` bytes the first `t` moves have written. */
  function Done(moves: seq<Move>, t: nat, size: nat): (k: nat)
    requires t <= |moves|
    ensures k <= size
  {
    if t == 0 then 0
    else
      var k := Done(moves, t - 1, size);
      if moves[t - 1].own then k + Min(size - k, CHUNK) else k
  }

  /** File `i` holds `bytes`. */
  ghost predicate Contains(s: Snapshot, i: nat, bytes: seq<Byte>) {
    && Inv(s.fs, s.owner) && i < |s.fs.inodes| && Extent(s.fs, i, s.fs.inodes[i].size)
    && Bytes(s.fs, s.owner, i, s.fs.inodes[i].size) == bytes
  }

  /** An operation, once `k` bytes are written: the next chunk, or something that does
      not touch file `i`. */
  ghost predicate OneMove(s: Snapshot, s': Snapshot, m: Move, i: nat, off0: nat, data: seq<Byte>, k: nat) {
    && s'.fs.sb == s.fs.sb && Changed(s.fs.sb, s.fs.blocks, s'.fs.blocks, m.log) && AllSynced(s'.fs) && Inv(s'.fs, s'.owner)
    && if m.own then
         k <= |data| && Spliced(s.fs, s.owner, s'.fs, s'.owner, i, data[k..k + Min(|data| - k, CHUNK)], off0 + k)
       else forall bytes :: Contains(s, i, bytes) ==> Contains(s', i, bytes)
  }

  /** A filewrite's chunks among any other operations. */
  ghost predicate Interleaved(states: seq<Snapshot>, moves: seq<Move>, i: nat, off0: nat, data: seq<Byte>) {
    && |states| == |moves| + 1 && Inv(states[0].fs, states[0].owner) && AllSynced(states[0].fs)
    && forall t :: 0 <= t < |moves| ==> OneMove(states[t], states[t + 1], moves[t], i, off0, data, Done(moves, t, |data|))
  }

  /** writei to another file, or itrunc of it, is such an operation. */
  lemma OthersDoNotTouch(s: Snapshot, s': Snapshot, x: nat, i: nat)
    requires OthersKept(s.fs, s.owner, s'.fs, s'.owner, x) && x != i && i < |s.fs.inodes| == |s'.fs.inodes|
    requires s'.fs.inodes[i] == s.fs.inodes[i]
    ensures forall bytes :: Contains(s, i, bytes) ==> Contains(s', i, bytes)
  {
    hide Inv, Extent, Bytes;
  }

  lemma OneMoveContains(s: Snapshot, s': Snapshot, m: Move, i: nat, off0: nat, data: seq<Byte>, k: nat, c: seq<Byte>)
    requires OneMove(s, s', m, i, off0, data, k) && off0 <= |c| && k <= |data| && Contains(s, i, Splice(c, off0, data[..k]))
    ensures var k' := if m.own then k + Min(|data| - k, CHUNK) else k; Contains(s', i, Splice(c, off0, data[..k']))
  {
    hide Inv, Extent, Bytes, Changed, AllSynced, OthersKept, Synced;
    if m.own {
      var chunk := data[k..k + Min(|data| - k, CHUNK)];
      SpliceOn(c, off0, data[..k], chunk);
      assert data[..k] + chunk == data[..k + Min(|data| - k, CHUNK)];
    }
  }

  /** At every point the file is the old one with what is written spliced in. */
  lemma {:induction false} FileAmongOthers(states: seq<Snapshot>, moves: seq<Move>, i: nat, off0: nat, data: seq<Byte>,
                                           c: seq<Byte>, t: nat)
    requires Interleaved(states, moves, i, off0, data) && t < |states| && Contains(states[0], i, c) && off0 <= |c|
    ensures Contains(states[t], i, Splice(c, off0, data[..Done(moves, t, |data|)]))
    ensures Inv(states[t].fs, states[t].owner) && AllSynced(states[t].fs) && states[t].fs.sb == states[0].fs.sb
  {
    hide OneMove, Contains, Inv, AllSynced;
    if t == 0 {
      assert Splice(c, off0, data[..0]) == c;
    } else {
      FileAmongOthers(states, moves, i, off0, data, c, t - 1);
      var k := Done(moves, t - 1, |data|);
      assert OneMove(states[t - 1], states[t - 1 + 1], moves[t - 1], i, off0, data, k);
      OneMoveContains(states[t - 1], states[t], moves[t - 1], i, off0, data, k, c);
      MoveKeeps(states[t - 1], states[t], moves[t - 1], i, off0, data, k);
    }
  }

  lemma MoveKeeps(s: Snapshot, s': Snapshot, m: Move, i: nat, off0: nat, data: seq<Byte>, k: nat)
    requires OneMove(s, s', m, i, off0, data, k)
    ensures s'.fs.sb == s.fs.sb && Inv(s'.fs, s'.owner) && AllSynced(s'.fs)
    ensures Changed(s.fs.sb, s.fs.blocks, s'.fs.blocks, m.log)
  {
  }

  /** Everything logged by moves `a` to `b`. */
  ghost function LoggedBy(moves: seq<Move>, a: nat, b: nat): set<nat>
    requires a <= b <= |moves|
    decreases b
  {
    if a == b then {} else LoggedBy(moves, a, b - 1) + moves[b - 1].log
  }

  lemma {:induction false} ChangedBy(states: seq<Snapshot>, moves: seq<Move>, i: nat, off0: nat, data: seq<Byte>, a: nat, b: nat)
    requires Interleaved(states, moves, i, off0, data) && a <= b <= |moves|
    ensures states[b].fs.sb == states[a].fs.sb
    ensures Changed(states[a].fs.sb, states[a].fs.blocks, states[b].fs.blocks, LoggedBy(moves, a, b))
    decreases b
  {
    hide OneMove, Inv, AllSynced;
    if a < b {
      ChangedBy(states, moves, i, off0, data, a, b - 1);
      var k := Done(moves, b - 1, |data|);
      assert OneMove(states[b - 1], states[b - 1 + 1], moves[b - 1], i, off0, data, k);
      MoveKeeps(states[b - 1], states[b], moves[b - 1], i, off0, data, k);
    }
  }

  /** Where commits fall: commit `j` takes the moves from `cuts[j]` to `cuts[j + 1]`. */
  ghost predicate Cuts(cuts: seq<nat>, n: nat) {
    && |cuts| > 0 && cuts[0] == 0 && (forall j :: 0 <= j < |cuts| ==> cuts[j] <= n)
    && forall j :: 0 <= j < |cuts| - 1 ==> cuts[j] <= cuts[j + 1]
  }

  ghost function StatesAt(states: seq<Snapshot>, cuts: seq<nat>): seq<Snapshot>
    requires forall j :: 0 <= j < |cuts| ==> cuts[j] < |states|
  {
    seq(|cuts|, j requires 0 <= j < |cuts| => states[cuts[j]])
  }

  ghost function Groups(moves: seq<Move>, cuts: seq<nat>): seq<set<nat>>
    requires Cuts(cuts, |moves|)
  {
    seq(|cuts| - 1, j requires 0 <= j < |cuts| - 1 => LoggedBy(moves, cuts[j], cuts[j + 1]))
  }

  lemma GroupsInSteps(states: seq<Snapshot>, moves: seq<Move>, i: nat, off0: nat, data: seq<Byte>, cuts: seq<nat>)
    requires Interleaved(states, moves, i, off0, data) && Cuts(cuts, |moves|)
    ensures InSteps(StatesAt(states, cuts), Groups(moves, cuts))
  {
    hide Changed, LoggedBy;
    forall j | 0 <= j < |cuts| - 1
      ensures Changed(states[0].fs.sb, states[cuts[j]].fs.blocks, states[cuts[j + 1]].fs.blocks, LoggedBy(moves, cuts[j], cuts[j + 1]))
    {
      ChangedBy(states, moves, i, off0, data, 0, cuts[j]);
      ChangedBy(states, moves, i, off0, data, cuts[j], cuts[j + 1]);
    }
  }

  /** A filewrite among other operations, grouped into commits in any way: a crash in
      any commit, and any reboots, leave the file system from before or after that
      commit. The file holds its old bytes with a whole number of chunks spliced in. */
  lemma CrashAmongOthers(g: Log.Geometry, disks: seq<Disk>, commits: seq<Commit>, states: seq<Snapshot>, moves: seq<Move>,
                         cuts: seq<nat>, i: nat, off0: nat, data: seq<Byte>, was: seq<Byte>, c: nat, p: nat, ds: seq<Disk>)
    requires Interleaved(states, moves, i, off0, data) && Cuts(cuts, |moves|)
    requires Journal(g, disks, commits, StatesAt(states, cuts), Groups(moves, cuts)) && LogBelow(g, states[0].fs.sb)
    requires Contains(states[0], i, was) && off0 <= |was|
    requires c < |commits| && LogOps.Crashed(g, disks[c], commits[c].bl, commits[c].cache, p, ds)
    ensures Log.LogOk(g, ds[|ds| - 1])
    ensures var t := cuts[if p <= |commits[c].bl| then c else c + 1];
            Reloads(states[t], i, Splice(was, off0, data[..Done(moves, t, |data|)]), Log.Recovered(g, ds[|ds| - 1]))
  {
    hide Changed, LoggedBy, Contains, Inv, AllSynced, SameFiles, Log.LogOk, Log.AllOld, Log.Recovered, Interleaved, Log.CommitPoints,
      Reload, Reloads, Logs, Next, Splice, Done, LogBelow, InSteps, Log.ValidBlocks;
    IsLonger(states, moves, i, off0, data);
    GroupsInSteps(states, moves, i, off0, data, cuts);
    CrashInCommit(g, disks, commits, StatesAt(states, cuts), Groups(moves, cuts), c, p, ds);
    var t := cuts[if p <= |commits[c].bl| then c else c + 1];
    FileAmongOthers(states, moves, i, off0, data, was, t);
    ReloadsTo(g, states[t], i, Splice(was, off0, data[..Done(moves, t, |data|)]), Log.Recovered(g, ds[|ds| - 1]));
  }

  lemma IsLonger(states: seq<Snapshot>, moves: seq<Move>, i: nat, off0: nat, data: seq<Byte>)
    requires Interleaved(states, moves, i, off0, data)
    ensures |states| == |moves| + 1
  {
  }

  /** Read from disk `r`, every file is as in `s`, and file `i` holds `bytes`. */
  ghost predicate Reloads(s: Snapshot, i: nat, bytes: seq<Byte>, r: Disk) {
    && ValidSuper(s.fs.sb) && |r| == s.fs.sb.size && SameFiles(s, Reload(s.fs.sb, r))
    && Contains(Snapshot(Reload(s.fs.sb, r), s.owner), i, bytes)
  }

  lemma ReloadsTo(g: Log.Geometry, s: Snapshot, i: nat, bytes: seq<Byte>, r: Disk)
    requires Contains(s, i, bytes) && AllSynced(s.fs) && LogBelow(g, s.fs.sb) && Log.AllOld(g, s.fs.blocks, r)
    ensures Reloads(s, i, bytes, r)
  {
    hide At, Inv, Extent, Bytes, Synced, Reload;
    InvShape(s.fs, s.owner);
    ReloadSame(g, s, r);
  }

  // ------------------------------------------------- the commits of log.c

  /** The commit that a run of log operations starts is one of these: it takes exactly
      the operations that have ended, whoever's they are. */
  lemma GroupOfRun(ss: seq<LogOps.State>, steps: seq<LogOps.Step>, cap: nat, n: nat, g: Log.Geometry, sb: Super,
                   a: Disk, a': Disk, log: set<nat>, cache: map<nat, Block>)
    requires LogOps.IsRun(ss, steps, LogOps.NLOG, cap) && cap < LogOps.MAXOPBLOCKS && n < |ss| && ss[n].phase == LogOps.Writing
    requires g.size == LogOps.NLOG && LogBelow(g, sb) && Changed(sb, a, a', log)
    requires forall b :: b in log <==> exists o :: o in ss[n].ended && b in ss[n].ended[o]
    requires forall b :: b in log ==> b in cache && b < |a'| && cache[b] == a'[b]
    ensures Logs(g, Commit(ss[n].blocks, cache), a, a', log)
  {
    LogOps.RunsKeepInv(ss, steps, LogOps.NLOG, cap, n);
    BlocksOfEnded(ss[n], cap);
    forall b | b in ss[n].blocks
      ensures b < |a| && !Log.InLog(g, b)
    {
      assert b in log;
    }
    LogOps.RunsAreCommittable(ss, steps, cap, n, g, a);
  }

  lemma BlocksOfEnded(s: LogOps.State, cap: nat)
    requires LogOps.Inv(s, cap) && s.phase == LogOps.Writing
    ensures forall b :: b in s.blocks <==> exists o :: o in s.ended && b in s.ended[o]
  {
  }
}
