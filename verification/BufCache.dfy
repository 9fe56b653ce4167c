/** The buffer cache of bio.c: a circular doubly linked list of buffers with the
    most recently released first, over a disk whose blocks the log may have
    changed in memory only. */
module BufCache {
  import opened Common
  import opened Blocks

  /** The one disk device; binit leaves every buffer at device 0. */
  const DISK: nat := 1

  // ------------------------------------------------------------ linked ring

  /** Position `i` of the list; both ends are the head. */
  function Node(order: seq<nat>, head: nat, i: int): nat {
    if 0 <= i < |order| then order[i] else head
  }

  /** The link into position `i`, both ways. */
  predicate LinkOk(next: seq<nat>, prev: seq<nat>, order: seq<nat>, head: nat, i: int) {
    var a, b := Node(order, head, i - 1), Node(order, head, i);
    a < |next| && b < |prev| && next[a] == b && prev[b] == a
  }

  /** `order` is what following `next` from the head visits, and `prev` undoes it. */
  ghost predicate Ring(next: seq<nat>, prev: seq<nat>, order: seq<nat>, head: nat) {
    && |next| == |prev| && head < |next| && head !in order
    && (forall i :: 0 <= i < |order| ==> order[i] < |next|)
    && (forall i, j :: 0 <= i < j < |order| ==> order[i] != order[j])
    && (forall i :: 0 <= i <= |order| ==> LinkOk(next, prev, order, head, i))
  }

  /** Taking position `k` out by its two neighbours' links. */
  lemma Unlinked(next: seq<nat>, prev: seq<nat>, order: seq<nat>, head: nat, k: nat)
    requires Ring(next, prev, order, head) && k < |order|
    ensures var b := order[k];
            && next[b] < |next| && prev[b] < |next|
            && Ring(next[prev[b] := next[b]], prev[next[b] := prev[b]], Omit(order, k), head)
  {
    var b := order[k];
    assert LinkOk(next, prev, order, head, k) && LinkOk(next, prev, order, head, k + 1);
    var a, c := Node(order, head, k - 1), Node(order, head, k + 1);
    var next', prev', r := next[a := c], prev[c := a], Omit(order, k);
    OmitAt(order, k);
    forall i | 0 <= i <= |r|
      ensures LinkOk(next', prev', r, head, i)
    {
      UnlinkedAt(next, prev, order, head, k, i);
    }
    hide LinkOk;
    assert Ring(next', prev', r, head);
  }

  lemma UnlinkedAt(next: seq<nat>, prev: seq<nat>, order: seq<nat>, head: nat, k: nat, i: nat)
    requires Ring(next, prev, order, head) && k < |order| && i < |order|
    ensures var a, c := Node(order, head, k - 1), Node(order, head, k + 1);
            && a < |next| && c < |next|
            && LinkOk(next[a := c], prev[c := a], Omit(order, k), head, i)
  {
    assert LinkOk(next, prev, order, head, k) && LinkOk(next, prev, order, head, k + 1);
    OmitAt(order, k);
    if i != k {
      assert LinkOk(next, prev, order, head, if i < k then i else i + 1);
    }
  }

  /** Linking `b` in behind the head. */
  lemma PushedFront(next: seq<nat>, prev: seq<nat>, order: seq<nat>, head: nat, b: nat)
    requires Ring(next, prev, order, head) && b < |next| && b !in order && b != head
    ensures next[head] < |next|
    ensures Ring(next[b := next[head]][head := b], prev[b := head][next[head] := b], [b] + order, head)
  {
    assert LinkOk(next, prev, order, head, 0);
    var c := next[head];
    var next', prev', r := next[b := c][head := b], prev[b := head][c := b], [b] + order;
    forall i | 0 <= i <= |r|
      ensures LinkOk(next', prev', r, head, i)
    {
      if i >= 2 {
        assert LinkOk(next, prev, order, head, i - 1);
      }
    }
    assert forall i :: 0 <= i < |r| ==> r[i] == if i == 0 then b else order[i - 1];
    hide LinkOk;
    assert Ring(next', prev', r, head);
  }

  // --------------------------------------------------------------- buffers

  datatype Buf = Buf(dev: nat, blockno: nat, valid: bool, dirty: bool, refcnt: nat, data: Block)

  predicate Holds(b: Buf, dev: nat, blockno: nat) {
    b.dev == dev && b.blockno == blockno
  }

  predicate Recyclable(b: Buf) {
    b.refcnt == 0 && !b.dirty
  }

  /** At most one buffer holds any block of a real device. */
  ghost predicate Unique(bufs: seq<Buf>) {
    forall a, b :: 0 <= a < b < |bufs| && bufs[a].dev == bufs[b].dev != 0 ==> bufs[a].blockno != bufs[b].blockno
  }

  /** One buffer against the disk: what it caches is the logical contents, and only
      a dirty buffer may be ahead of the disk. A buffer someone holds may have been
      modified and not logged yet. */
  ghost predicate BufOk(b: Buf, held: bool, disk: Disk, logical: Disk) {
    && |disk| == |logical|
    && (b.dirty && !held ==> b.valid)
    && (b.valid ==> b.dev == DISK && b.blockno < |disk|)
    && (b.valid && !held ==> b.data == logical[b.blockno])
    && (b.dev == DISK && b.blockno < |disk| && !b.dirty ==> logical[b.blockno] == disk[b.blockno])
  }

  /** Nothing in the buffer is waiting to be logged or written. */
  ghost predicate Settled(b: Buf, logical: Disk) {
    (b.dirty ==> b.valid) && (b.valid ==> b.blockno < |logical| && b.data == logical[b.blockno])
  }

  ghost predicate Cached(bufs: seq<Buf>, k: nat) {
    exists b :: 0 <= b < |bufs| && Holds(bufs[b], DISK, k)
  }

  ghost predicate Coherent(bufs: seq<Buf>, held: set<nat>, disk: Disk, logical: Disk) {
    && |disk| == |logical|
    && (forall b :: 0 <= b < |bufs| ==> BufOk(bufs[b], b in held, disk, logical))
    && (forall k :: 0 <= k < |disk| && !Cached(bufs, k) ==> logical[k] == disk[k])
  }

  /** The list is ordered by last release, latest first. */
  ghost predicate ByRelease(order: seq<nat>, stamp: seq<nat>, time: nat) {
    && (forall i :: 0 <= i < |order| ==> order[i] < |stamp|)
    && (forall i, j :: 0 <= i < j < |order| ==> stamp[order[i]] > stamp[order[j]])
    && (forall b :: 0 <= b < |stamp| ==> stamp[b] < time)
  }

  class Cache {
    const n: nat
    var next: seq<nat>
    var prev: seq<nat>
    var bufs: seq<Buf>
    var disk: Disk
    /** the list, when each buffer was last released, and the clock */
    ghost var order: seq<nat>
    ghost var stamp: seq<nat>
    ghost var time: nat
    /** the disk as file system code sees it: logged writes included */
    ghost var logical: Disk
    /** the process that has each locked buffer's sleep-lock */
    var held: map<nat, nat>
    /** how many wait for each buffer's lock */
    ghost var waiting: seq<nat>

    /** binit: every buffer on the list, unused. */
    constructor (n: nat, disk: Disk)
      ensures this.n == n && this.disk == disk && logical == disk && held == map[]
      ensures Valid() && forall b :: 0 <= b < n ==> Recyclable(bufs[b]) && !bufs[b].valid
    {
      this.n := n;
      this.disk, logical, held := disk, disk, map[];
      bufs := seq(n, i => Buf(0, 0, false, false, 0, ZeroBlock()));
      waiting := seq(n, i => 0);
      stamp, time := seq(n, i => i), n;
      var nx: seq<nat>, pv: seq<nat> := seq(n + 1, i => n), seq(n + 1, i => n);
      ghost var o: seq<nat> := [];
      assert LinkOk(nx, pv, o, n, 0);
      var b := 0;
      while b < n
        invariant 0 <= b <= n && |o| == b && |nx| == n + 1
        invariant Ring(nx, pv, o, n)
        invariant forall i :: 0 <= i < b ==> o[i] == b - 1 - i
      {
        PushedFront(nx, pv, o, n, b);
        hide Ring;
        var first := nx[n];
        nx := nx[b := first];
        pv := pv[b := n];
        pv := pv[first := b];
        nx := nx[n := b];
        o := [b] + o;
        b := b + 1;
      }
      next, prev, order := nx, pv, o;
      forall c | 0 <= c < n
        ensures c in o
      {
        assert o[n - 1 - c] == c;
      }
    }

    ghost predicate Listed()
      reads this
    {
      && |bufs| == n && |next| == n + 1 && Ring(next, prev, order, n) && |order| == n
      && (forall b :: 0 <= b < n ==> b in order)
      && |stamp| == n && ByRelease(order, stamp, time)
    }

    ghost predicate Counted()
      reads this
    {
      && |waiting| == |bufs|
      && (forall b :: b in held ==> b < |bufs|)
      && forall b :: 0 <= b < |bufs| ==> bufs[b].refcnt == waiting[b] + if b in held then 1 else 0
    }

    /** The list and the counts: all that brelse itself relies on. */
    ghost predicate Sound()
      reads this
    {
      Listed() && Counted() && Unique(bufs)
    }

    ghost predicate Valid()
      reads this
    {
      Sound() && Coherent(bufs, held.Keys, disk, logical)
    }

    /** holdingsleep. */
    predicate Holding(me: nat, b: nat)
      reads this
    {
      b in held && held[b] == me
    }

    /** bget's first loop, most recently used first. */
    method Lookup(dev: nat, blockno: nat) returns (b: nat)
      requires Listed()
      ensures b <= n
      ensures b < n ==> Holds(bufs[b], dev, blockno)
      ensures b == n ==> forall c :: 0 <= c < n ==> !Holds(bufs[c], dev, blockno)
    {
      ghost var i := 0;
      assert LinkOk(next, prev, order, n, 0);
      b := next[n];
      while b != n
        invariant 0 <= i <= n && b == Node(order, n, i)
        invariant forall j :: 0 <= j < i ==> !Holds(bufs[order[j]], dev, blockno)
        decreases n - i
      {
        if bufs[b].dev == dev && bufs[b].blockno == blockno {
          return;
        }
        assert LinkOk(next, prev, order, n, i + 1);
        b, i := next[b], i + 1;
      }
      forall c | 0 <= c < n
        ensures !Holds(bufs[c], dev, blockno)
      {
        assert c in order;
      }
    }

    /** bget's second loop, least recently used first: of the buffers that are
        neither referenced nor dirty, the one released longest ago. */
    method Victim() returns (b: nat)
      requires Listed()
      ensures b <= n
      ensures b < n ==> Recyclable(bufs[b]) && forall c :: 0 <= c < n && stamp[c] < stamp[b] ==> !Recyclable(bufs[c])
      ensures b == n ==> forall c :: 0 <= c < n ==> !Recyclable(bufs[c])
    {
      ghost var i := n - 1;
      assert LinkOk(next, prev, order, n, n);
      b := prev[n];
      while b != n
        invariant -1 <= i < n && b == Node(order, n, i)
        invariant forall j :: i < j < n ==> !Recyclable(bufs[order[j]])
        decreases i
      {
        if bufs[b].refcnt == 0 && !bufs[b].dirty {
          forall c | 0 <= c < n && stamp[c] < stamp[b]
            ensures !Recyclable(bufs[c])
          {
            assert c in order;
            var j :| 0 <= j < |order| && order[j] == c;
            assert i < j;
          }
          return;
        }
        assert LinkOk(next, prev, order, n, i);
        b, i := prev[b], i - 1;
      }
      forall c | 0 <= c < n
        ensures !Recyclable(bufs[c])
      {
        assert c in order;
      }
    }

    /** bget up to its wait for the buffer's lock: the one buffer of the block,
        referenced once more, or else the victim taken over. No dirty or referenced
        buffer changes hands. `ok` is false where the source panics. */
    method Bget(dev: nat, blockno: nat) returns (ok: bool, b: nat)
      requires Valid()
      modifies this`bufs, this`waiting
      ensures Valid()
      ensures ok ==> b < n && bufs[b].dev == dev && bufs[b].blockno == blockno
      ensures ok ==> waiting == old(waiting)[b := old(waiting[b]) + 1]
      ensures ok ==> forall c :: 0 <= c < n && c != b ==> bufs[c] == old(bufs)[c]
      ensures ok && !Holds(old(bufs)[b], dev, blockno) ==> Recyclable(old(bufs)[b]) && !bufs[b].valid && !bufs[b].dirty
      ensures ok && !Holds(old(bufs)[b], dev, blockno) ==> forall c :: 0 <= c < n && stamp[c] < stamp[b] ==> !Recyclable(old(bufs)[c])
      ensures ok && Holds(old(bufs)[b], dev, blockno) ==> bufs[b] == old(bufs)[b].(refcnt := old(bufs)[b].refcnt + 1)
      ensures !ok ==> bufs == old(bufs) && waiting == old(waiting)
      ensures !ok ==> forall c :: 0 <= c < n ==> !Recyclable(bufs[c]) && !Holds(bufs[c], dev, blockno)
    {
      hide Ring, ByRelease, Counted, Unique, Coherent;
      b := Lookup(dev, blockno);
      if b != n {
        Reference(b);
        return true, b;
      }
      b := Victim();
      if b == n {
        return false, b;
      }
      TakeOver(b, dev, blockno);
      return true, b;
    }

    method Reference(b: nat)
      requires Valid() && b < n
      modifies this`bufs, this`waiting
      ensures Valid() && waiting == old(waiting)[b := old(waiting[b]) + 1]
      ensures bufs == old(bufs)[b := old(bufs)[b].(refcnt := old(bufs)[b].refcnt + 1)]
    {
      hide Ring, ByRelease;
      ghost var before := bufs;
      assert BufOk(before[b], b in held, disk, logical);
      bufs := bufs[b := bufs[b].(refcnt := bufs[b].refcnt + 1)];
      waiting := waiting[b := waiting[b] + 1];
      Updated(before, bufs, held.Keys, held.Keys, disk, disk, logical, logical, b);
    }

    method TakeOver(b: nat, dev: nat, blockno: nat)
      requires Valid() && b < n && Recyclable(bufs[b]) && forall c :: 0 <= c < n ==> !Holds(bufs[c], dev, blockno)
      modifies this`bufs, this`waiting
      ensures Valid() && waiting == old(waiting)[b := old(waiting[b]) + 1]
      ensures bufs == old(bufs)[b := Buf(dev, blockno, false, false, 1, old(bufs)[b].data)]
    {
      hide Ring, ByRelease;
      ghost var before := bufs;
      bufs := bufs[b := Buf(dev, blockno, false, false, 1, bufs[b].data)];
      waiting := waiting[b := waiting[b] + 1];
      Recycled(before, bufs, held.Keys, disk, logical, b);
    }

    /** iderw (the in-memory disk): a dirty buffer is written, an invalid one read.
        `ok` is false where the source panics. */
    method Iderw(me: nat, b: nat) returns (ok: bool)
      requires Valid() && b < n
      modifies this`bufs, this`disk, this`logical
      ensures Valid()
      ensures ok <==> Holding(me, b) && (old(bufs)[b].valid ==> old(bufs)[b].dirty) && OnDisk(old(bufs)[b], old(disk))
      ensures !ok ==> bufs == old(bufs) && disk == old(disk) && logical == old(logical)
      ensures ok ==> Transferred(old(bufs)[b], bufs[b], old(disk), disk, old(logical), logical)
      ensures |bufs| == |old(bufs)| && forall c :: 0 <= c < |bufs| && c != b ==> bufs[c] == old(bufs)[c]
    {
      hide Ring, ByRelease;
      if !Holding(me, b) {
        return false;
      }
      var x := bufs[b];
      if (x.valid && !x.dirty) || x.dev != DISK || x.blockno >= |disk| {
        return false;
      }
      ghost var before, disk0, logical0 := bufs, disk, logical;
      assert BufOk(before[b], b in held, disk, logical);
      if x.dirty {
        disk := disk[x.blockno := x.data];
        logical := logical[x.blockno := x.data];
        bufs := bufs[b := x.(dirty := false, valid := true)];
      } else {
        bufs := bufs[b := x.(data := disk[x.blockno], valid := true)];
      }
      Updated(before, bufs, held.Keys, held.Keys, disk0, disk, logical0, logical, b);
      return true;
    }

    /** bwrite: the buffer's data go to its block, whatever it held before. */
    method Bwrite(me: nat, b: nat) returns (ok: bool)
      requires Valid() && b < n
      modifies this`bufs, this`disk, this`logical
      ensures Valid()
      ensures ok <==> Holding(me, b) && OnDisk(old(bufs)[b], old(disk))
      ensures ok ==> bufs == old(bufs)[b := old(bufs)[b].(dirty := false, valid := true)]
      ensures ok ==> disk == old(disk)[bufs[b].blockno := bufs[b].data]
      ensures ok ==> logical == old(logical)[bufs[b].blockno := bufs[b].data]
      ensures !ok ==> disk == old(disk) && logical == old(logical)
    {
      hide Ring, ByRelease;
      if !Holding(me, b) {
        return false;
      }
      ghost var before := bufs;
      assert BufOk(before[b], b in held, disk, logical);
      bufs := bufs[b := bufs[b].(dirty := true)];
      Updated(before, bufs, held.Keys, held.Keys, disk, disk, logical, logical, b);
      ok := Iderw(me, b);
    }

    /** log_write's mark: the block's logical contents become the buffer's, and the
        buffer is pinned until they are on disk. */
    method LogWrite(b: nat)
      requires Valid() && b in held && bufs[b].valid
      modifies this`bufs, this`logical
      ensures Valid()
      ensures bufs == old(bufs)[b := old(bufs)[b].(dirty := true)]
      ensures logical == old(logical)[bufs[b].blockno := bufs[b].data]
    {
      hide Ring, ByRelease;
      ghost var before, logical0 := bufs, logical;
      assert BufOk(before[b], b in held, disk, logical);
      bufs := bufs[b := bufs[b].(dirty := true)];
      logical := logical[bufs[b].blockno := bufs[b].data];
      Updated(before, bufs, held.Keys, held.Keys, disk, disk, logical0, logical, b);
    }

    /** What the holder of a buffer does to its data. */
    method SetData(b: nat, data: Block)
      requires Valid() && b in held && bufs[b].valid
      modifies this`bufs
      ensures Valid() && bufs == old(bufs)[b := old(bufs)[b].(data := data)]
    {
      hide Ring, ByRelease;
      ghost var before := bufs;
      assert BufOk(before[b], b in held, disk, logical);
      bufs := bufs[b := bufs[b].(data := data)];
      Updated(before, bufs, held.Keys, held.Keys, disk, disk, logical, logical, b);
    }

    /** bread from the moment its wait for the lock is over, which is when nobody
        else holds the buffer: the caller gets the block's logical contents.
        `ok` is false where the source panics. */
    method BreadLocked(me: nat, b: nat) returns (ok: bool)
      requires Valid() && b < n && waiting[b] > 0 && b !in held
      modifies this`bufs, this`disk, this`logical, this`waiting, this`held
      ensures Valid()
      ensures held == old(held)[b := me] && waiting == old(waiting)[b := old(waiting)[b] - 1]
      ensures ok <==> OnDisk(bufs[b], disk)
      ensures logical == old(logical) && disk == old(disk)
      ensures ok ==> bufs == old(bufs)[b := old(bufs)[b].(valid := true, data := logical[bufs[b].blockno])]
    {
      hide Ring, ByRelease;
      ghost var held0 := held.Keys;
      assert BufOk(bufs[b], b in held, disk, logical);
      waiting := waiting[b := waiting[b] - 1];
      held := held[b := me];
      Updated(bufs, bufs, held0, held.Keys, disk, disk, logical, logical, b);
      ok := true;
      if !bufs[b].valid {
        ok := Iderw(me, b);
      }
    }

    /** The list manipulation of brelse. */
    method MoveToFront(b: nat)
      requires Listed() && b < n
      modifies this`next, this`prev, this`order, this`stamp, this`time
      ensures Listed()
      ensures order[0] == b && stamp == old(stamp)[b := old(time)]
    {
      hide Ring, ByRelease;
      assert b in order;
      ghost var front := MovedToFront(next, prev, order, n, b, stamp, time);
      var bNext, bPrev := next[b], prev[b];
      prev := prev[bNext := bPrev];
      next := next[bPrev := bNext];
      var first := next[n];
      next := next[b := first];
      prev := prev[b := n];
      prev := prev[first := b];
      next := next[n := b];
      order, stamp, time := front, stamp[b := time], time + 1;
    }

    /** brelse: a buffer nobody else waits for becomes the most recently used. The
        cache stays right if and only if the caller has logged or written what it
        changed. `ok` is false where the source panics. */
    method Brelse(me: nat, b: nat) returns (ok: bool)
      requires Sound() && b < n
      modifies this`bufs, this`held, this`next, this`prev, this`order, this`stamp, this`time
      ensures Sound() && (ok <==> old(Holding(me, b)))
      ensures !ok ==> held == old(held) && bufs == old(bufs) && order == old(order) && stamp == old(stamp)
      ensures ok ==> held == old(held) - {b} && bufs == old(bufs)[b := old(bufs)[b].(refcnt := waiting[b])]
      ensures ok && waiting[b] == 0 ==> order[0] == b && stamp == old(stamp)[b := old(time)]
      ensures ok && waiting[b] > 0 ==> order == old(order) && stamp == old(stamp)
      ensures ok && old(Valid()) ==> (Valid() <==> Settled(bufs[b], logical))
    {
      hide Ring, ByRelease, Coherent;
      if !Holding(me, b) {
        return false;
      }
      Unlock(b);
      if bufs[b].refcnt == 0 {
        MoveToFront(b);
      }
      return true;
    }

    /** releasesleep, and the reference given back. */
    method Unlock(b: nat)
      requires Sound() && b in held
      modifies this`bufs, this`held
      ensures Sound() && held == old(held) - {b} && bufs == old(bufs)[b := old(bufs)[b].(refcnt := waiting[b])]
      ensures old(Valid()) ==> (Coherent(bufs, held.Keys, disk, logical) <==> Settled(bufs[b], logical))
    {
      hide Ring, ByRelease, Coherent;
      ghost var before, held0 := bufs, held.Keys;
      held := held - {b};
      bufs := bufs[b := bufs[b].(refcnt := bufs[b].refcnt - 1)];
      if old(Valid()) {
        Released(before, bufs, held0, held.Keys, disk, logical, b);
      }
    }
  }

  /** There is such a block to read or write. */
  predicate OnDisk(b: Buf, disk: Disk) {
    b.dev == DISK && b.blockno < |disk|
  }

  /** What iderw moves between a buffer and the disk. */
  ghost predicate Transferred(b: Buf, b': Buf, disk: Disk, disk': Disk, logical: Disk, logical': Disk) {
    b.blockno < |disk| == |logical| &&
    if b.dirty then
      && b' == b.(dirty := false, valid := true)
      && disk' == disk[b.blockno := b.data] && logical' == logical[b.blockno := b.data]
    else
      b' == b.(valid := true, data := logical[b.blockno]) && disk' == disk && logical' == logical
  }

  lemma Restamped(order: seq<nat>, stamp: seq<nat>, time: nat, k: nat)
    requires ByRelease(order, stamp, time) && k < |order|
    requires forall i, j :: 0 <= i < j < |order| ==> order[i] != order[j]
    ensures ByRelease([order[k]] + Omit(order, k), stamp[order[k] := time], time + 1)
  {
    OmitAt(order, k);
    var order', stamp' := [order[k]] + Omit(order, k), stamp[order[k] := time];
    assert forall i :: 1 <= i < |order'| ==> order'[i] == order[if i - 1 < k then i - 1 else i];
    forall i, j | 0 <= i < j < |order'|
      ensures stamp'[order'[i]] > stamp'[order'[j]]
    {
      assert order'[j] != order[k];
    }
  }

  /** Unlinking `b` and pushing it to the front, and stamping it with the time. */
  lemma MovedToFront(next: seq<nat>, prev: seq<nat>, order: seq<nat>, head: nat, b: nat, stamp: seq<nat>, time: nat)
    returns (front: seq<nat>)
    requires Ring(next, prev, order, head) && b in order && ByRelease(order, stamp, time)
    ensures b < |next| == |prev| && b < |stamp| && next[b] < |next| && prev[b] < |next| && head < |next|
    ensures var next' := next[prev[b] := next[b]];
            next'[head] < |next| &&
            Ring(next'[b := next'[head]][head := b], prev[next[b] := prev[b]][b := head][next'[head] := b], front, head)
    ensures |front| == |order| && front[0] == b && forall c :: c in order ==> c in front
    ensures ByRelease(front, stamp[b := time], time + 1)
  {
    var k :| 0 <= k < |order| && order[k] == b;
    front := [b] + Omit(order, k);
    Unlinked(next, prev, order, head, k);
    OmitAt(order, k);
    Restamped(order, stamp, time, k);
    hide Ring, ByRelease;
    PushedFront(next[prev[b] := next[b]], prev[next[b] := prev[b]], Omit(order, k), head, b);
  }

  lemma CachedElsewhere(bufs: seq<Buf>, bufs': seq<Buf>, b: nat, k: nat)
    requires |bufs'| == |bufs| && b < |bufs|
    requires forall c :: 0 <= c < |bufs| && c != b ==> bufs'[c] == bufs[c]
    ensures Cached(bufs, k) ==> Cached(bufs', k) || Holds(bufs[b], DISK, k)
  {
    if Cached(bufs, k) && !Holds(bufs[b], DISK, k) {
      var c :| 0 <= c < |bufs| && Holds(bufs[c], DISK, k);
      assert Holds(bufs'[c], DISK, k);
    }
  }

  /** Changing one buffer, who holds it and its own block: no other buffer caches
      that block, so nothing else is affected. */
  lemma Updated(bufs: seq<Buf>, bufs': seq<Buf>, held: set<nat>, held': set<nat>,
                disk: Disk, disk': Disk, logical: Disk, logical': Disk, b: nat)
    requires Unique(bufs) && Coherent(bufs, held, disk, logical) && b < |bufs| == |bufs'|
    requires forall c :: 0 <= c < |bufs| && c != b ==> bufs'[c] == bufs[c] && (c in held <==> c in held')
    requires Holds(bufs'[b], bufs[b].dev, bufs[b].blockno)
    requires |disk'| == |logical'| == |disk|
    requires forall k :: 0 <= k < |disk| && !Holds(bufs[b], DISK, k) ==> disk'[k] == disk[k] && logical'[k] == logical[k]
    requires BufOk(bufs'[b], b in held', disk', logical')
    ensures Unique(bufs') && Coherent(bufs', held', disk', logical')
  {
    forall c | 0 <= c < |bufs'|
      ensures BufOk(bufs'[c], c in held', disk', logical')
    {
      if c != b {
        assert BufOk(bufs[c], c in held, disk, logical);
        assert c < b || b < c;
      }
    }
    forall k | 0 <= k < |disk'| && !Cached(bufs', k)
      ensures logical'[k] == disk'[k]
    {
      assert !Holds(bufs'[b], DISK, k);
      CachedElsewhere(bufs, bufs', b, k);
    }
  }

  /** Giving a buffer up. */
  lemma Released(bufs: seq<Buf>, bufs': seq<Buf>, held: set<nat>, held': set<nat>, disk: Disk, logical: Disk, b: nat)
    requires Unique(bufs) && Coherent(bufs, held, disk, logical) && b < |bufs| && b in held && held' == held - {b}
    requires |bufs'| == |bufs| && bufs' == bufs[b := bufs[b].(refcnt := bufs'[b].refcnt)]
    ensures Coherent(bufs', held', disk, logical) <==> Settled(bufs[b], logical)
  {
    assert BufOk(bufs[b], true, disk, logical);
    if BufOk(bufs'[b], false, disk, logical) {
      Updated(bufs, bufs', held, held', disk, disk, logical, logical, b);
    }
  }

  /** Taking over a clean, unreferenced buffer: its block is on disk as it should
      be, and the new block was not cached. */
  lemma Recycled(bufs: seq<Buf>, bufs': seq<Buf>, held: set<nat>, disk: Disk, logical: Disk, b: nat)
    requires Unique(bufs) && Coherent(bufs, held, disk, logical) && b < |bufs| && !bufs[b].dirty && b !in held
    requires |bufs'| == |bufs| && !bufs'[b].dirty && !bufs'[b].valid
    requires forall c :: 0 <= c < |bufs| && c != b ==> bufs'[c] == bufs[c]
    requires forall c :: 0 <= c < |bufs| ==> !Holds(bufs[c], bufs'[b].dev, bufs'[b].blockno)
    ensures Unique(bufs') && Coherent(bufs', held, disk, logical)
  {
    assert bufs'[b].dev == DISK ==> !Cached(bufs, bufs'[b].blockno);
    forall k | 0 <= k < |disk| && !Cached(bufs', k)
      ensures logical[k] == disk[k]
    {
      CachedElsewhere(bufs, bufs', b, k);
      assert BufOk(bufs[b], false, disk, logical);
    }
    forall c | 0 <= c < |bufs'|
      ensures BufOk(bufs'[c], c in held, disk, logical)
    {
      assert BufOk(bufs[c], c in held, disk, logical);
    }
  }
}
