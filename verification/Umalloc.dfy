/** The Kernighan and Ritchie allocator of umalloc.c. Memory is a sequence of
    header-sized units; an address is a unit index. */
module Umalloc {
  import opened Common

  /** sizeof(Header) */
  const UNIT: nat := 8
  /** The static `base` lies below everything sbrk ever returns. 0 is NULL. */
  const BASE: nat := 1
  const MORECORE: nat := 4096

  datatype Header = Header(ptr: nat, size: nat)

  /** The heap with what its free list means: `free` is the list in address order
      from `base`, `used` the headers of allocated blocks, and `own` tells for
      every unit obtained from sbrk the one block it belongs to. */
  datatype Heap = Heap(mem: seq<Header>, free: seq<nat>, used: set<nat>, own: map<nat, nat>)

  ghost predicate IsBlock(h: Heap, b: nat) {
    b in h.used || (b in h.free && b != BASE)
  }

  function Next(h: Heap, i: nat): nat
    requires i < |h.free|
  {
    if i + 1 < |h.free| then h.free[i + 1] else h.free[0]
  }

  /** The list pointer of position `i` leads to the next one. */
  predicate Linked(h: Heap, i: nat) {
    i < |h.free| && h.free[i] < |h.mem| && h.mem[h.free[i]].ptr == Next(h, i)
  }

  /** Position `i` ends before position `i + 1` begins, with units in between. */
  predicate Gap(h: Heap, i: nat) {
    i + 1 < |h.free| && h.free[i] < |h.mem| && h.free[i] + h.mem[h.free[i]].size < h.free[i + 1]
  }

  /** The list is circular, in address order with one wrap, and starts at base. */
  ghost predicate Circular(h: Heap) {
    && |h.free| >= 1 && h.free[0] == BASE
    && (forall i :: 0 <= i < |h.free| ==> h.free[i] < |h.mem|)
    && (forall i, j :: 0 <= i < j < |h.free| ==> h.free[i] < h.free[j])
    && (forall i :: 0 <= i < |h.free| ==> Linked(h, i))
    && h.mem[BASE].size == 0
  }

  /** Block `b` is not empty and owns the units it spans. */
  ghost predicate Covers(h: Heap, b: nat) {
    && b < |h.mem| && h.mem[b].size > 0
    && forall u: nat :: b <= u < b + h.mem[b].size ==> u in h.own && h.own[u] == b
  }

  /** Unit `u` lies inside the block that owns it. */
  ghost predicate Placed(h: Heap, u: nat) {
    && u in h.own && u < |h.mem|
    && IsBlock(h, h.own[u]) && h.own[u] < |h.mem| && h.own[u] <= u < h.own[u] + h.mem[h.own[u]].size
  }

  /** Free and allocated blocks partition the units obtained from sbrk. */
  ghost predicate Partition(h: Heap) {
    && (forall b :: b in h.used ==> BASE < b < |h.mem| && b !in h.free)
    && (forall b: nat :: IsBlock(h, b) ==> Covers(h, b))
    && (forall u :: u in h.own ==> Placed(h, u))
  }

  ghost predicate Sound(h: Heap) {
    Circular(h) && Partition(h)
  }

  /** No two neighbours of the free list touch: free blocks are coalesced. */
  ghost predicate Coalesced(h: Heap) {
    && Circular(h)
    && forall i :: 0 < i < |h.free| - 1 ==> Gap(h, i)
  }

  /** Blocks do not overlap. */
  lemma Apart(h: Heap, b: nat, c: nat)
    requires Sound(h) && IsBlock(h, b) && IsBlock(h, c) && b < c
    ensures b + h.mem[b].size <= c
  {
    assert Covers(h, b) && Covers(h, c);
    assert c in h.own && h.own[c] == c;
  }

  // ------------------------------------------------------------ operations

  /** Block `b`, no longer allocated, linked in after list position `k`. */
  function Link(h: Heap, k: nat, b: nat): (r: Heap)
    requires k < |h.free| && h.free[k] < |h.mem| && b < |h.mem|
  {
    var m := h.mem[b := h.mem[b].(ptr := Next(h, k))];
    h.(mem := m[h.free[k] := m[h.free[k]].(ptr := b)],
       free := h.free[..k + 1] + [b] + h.free[k + 1..],
       used := h.used - {b})
  }

  lemma LinkAt(h: Heap, k: nat, b: nat)
    requires k < |h.free| && h.free[k] < |h.mem| && b < |h.mem|
    ensures var f := Link(h, k, b).free;
            && |f| == |h.free| + 1
            && (forall i :: 0 <= i < |f| ==> f[i] == if i <= k then h.free[i] else if i == k + 1 then b else h.free[i - 1])
            && (forall x :: x in f <==> x in h.free || x == b)
  {
    var f := Link(h, k, b).free;
    assert f[k + 1] == b;
    forall x | x in h.free
      ensures x in f
    {
      var i :| 0 <= i < |h.free| && h.free[i] == x;
      assert f[if i <= k then i else i + 1] == x;
    }
  }

  lemma LinkCircular(h: Heap, k: nat, b: nat)
    requires Circular(h) && k < |h.free| && h.free[k] < b < |h.mem| && b !in h.free
    requires k + 1 < |h.free| ==> b < h.free[k + 1]
    ensures Circular(Link(h, k, b))
  {
    var r := Link(h, k, b);
    LinkAt(h, k, b);
    forall i | 0 <= i < |r.free|
      ensures Linked(r, i)
    {
      LinkLinked(h, k, b, i);
    }
    hide Linked, Link;
    forall i, j | 0 <= i < j < |r.free|
      ensures r.free[i] < r.free[j]
    {
      assert i <= k ==> h.free[i] <= h.free[k];
      assert k + 1 < j ==> b < h.free[k + 1] <= h.free[j - 1];
    }
  }

  lemma LinkLinked(h: Heap, k: nat, b: nat, i: nat)
    requires Circular(h) && k < |h.free| && h.free[k] < b < |h.mem| && b !in h.free && i <= |h.free|
    requires k + 1 < |h.free| ==> b < h.free[k + 1]
    ensures |Link(h, k, b).free| == |h.free| + 1 && Link(h, k, b).free[i] < |h.mem| && Linked(Link(h, k, b), i)
  {
    LinkAt(h, k, b);
    if i <= k {
      assert Linked(h, i) && Linked(h, k);
      assert i < k ==> h.free[i] != h.free[k];
    } else if i > k + 1 {
      assert Linked(h, i - 1);
      assert h.free[i - 1] != h.free[k] && h.free[i - 1] != b;
    }
  }

  lemma LinkPartition(h: Heap, k: nat, b: nat)
    requires Partition(h) && b in h.used && b < |h.mem| && k < |h.free| && h.free[k] < |h.mem|
    ensures Partition(Link(h, k, b))
  {
    var r := Link(h, k, b);
    LinkAt(h, k, b);
    assert forall x: nat :: x < |h.mem| ==> r.mem[x].size == h.mem[x].size;
    assert forall x: nat :: IsBlock(r, x) <==> IsBlock(h, x);
    hide IsBlock;
    forall x: nat | IsBlock(r, x)
      ensures Covers(r, x)
    {
      assert Covers(h, x);
    }
    forall u | u in r.own
      ensures Placed(r, u)
    {
      assert Placed(h, u);
    }
  }

  lemma LinkKeepsSound(h: Heap, k: nat, b: nat)
    requires Sound(h) && b in h.used && k < |h.free| && h.free[k] < b
    requires k + 1 < |h.free| ==> b < h.free[k + 1]
    ensures Sound(Link(h, k, b))
  {
    assert IsBlock(h, b) && Covers(h, b);
    LinkCircular(h, k, b);
    LinkPartition(h, k, b);
  }

  /** List positions `i` and `i + 1` made one block. */
  function Merge(h: Heap, i: nat): (r: Heap) {
    if i + 1 < |h.free| && h.free[i] < |h.mem| && h.free[i + 1] < |h.mem| then
      var p, q := h.free[i], h.free[i + 1];
      h.(mem := h.mem[p := Header(h.mem[q].ptr, h.mem[p].size + h.mem[q].size)],
         free := Omit(h.free, i + 1),
         own := map u | u in h.own :: if h.own[u] == q then p else h.own[u])
    else h
  }

  lemma MergeAt(h: Heap, i: nat)
    requires Circular(h) && i + 1 < |h.free|
    ensures var f := Merge(h, i).free;
            && |f| == |h.free| - 1
            && (forall k :: 0 <= k < |f| ==> f[k] == if k <= i then h.free[k] else h.free[k + 1])
            && (forall x :: x in f <==> x in h.free && x != h.free[i + 1])
  {
    OmitAt(h.free, i + 1);
    hide Linked, Omit;
  }

  lemma MergeCircular(h: Heap, i: nat)
    requires Circular(h) && 1 <= i && i + 1 < |h.free|
    ensures Circular(Merge(h, i))
  {
    var r := Merge(h, i);
    MergeAt(h, i);
    forall k | 0 <= k < |r.free|
      ensures Linked(r, k)
    {
      MergeLinked(h, i, k);
    }
    hide Linked, Merge;
    forall x, y | 0 <= x < y < |r.free|
      ensures r.free[x] < r.free[y]
    {
      assert h.free[if x <= i then x else x + 1] < h.free[if y <= i then y else y + 1];
    }
  }

  lemma MergeLinked(h: Heap, i: nat, k: nat)
    requires Circular(h) && 1 <= i && i + 1 < |h.free| && k < |h.free| - 1
    ensures Linked(Merge(h, i), k)
  {
    MergeAt(h, i);
    if k < i {
      assert Linked(h, k) && h.free[k] < h.free[i];
    } else if k == i {
      assert Linked(h, i + 1);
    } else {
      assert Linked(h, k + 1) && h.free[i] < h.free[k + 1];
    }
  }

  lemma MergeBlocks(h: Heap, i: nat)
    requires Sound(h) && 1 <= i && i + 1 < |h.free|
    ensures var r, p, q := Merge(h, i), h.free[i], h.free[i + 1];
            && IsBlock(h, p) && IsBlock(h, q) && p !in h.used && q !in h.used && p != q
            && forall x: nat :: IsBlock(r, x) <==> IsBlock(h, x) && x != q
  {
    MergeAt(h, i);
  }

  /** The merge read as an exchange: `p` takes over the units of `q`. */
  ghost predicate TakesOver(h: Heap, r: Heap, p: nat, q: nat) {
    && p < |h.mem| && q < |h.mem| && p != q && |r.mem| == |h.mem| && p + h.mem[p].size == q
    && r.mem[p].size == h.mem[p].size + h.mem[q].size
    && (forall x: nat :: x < |h.mem| && x != p ==> r.mem[x] == h.mem[x])
    && r.own.Keys == h.own.Keys && (forall u :: u in h.own ==> r.own[u] == if h.own[u] == q then p else h.own[u])
    && IsBlock(h, p) && IsBlock(h, q) && (forall x: nat :: IsBlock(r, x) <==> IsBlock(h, x) && x != q)
  }

  lemma TakenOverCovers(h: Heap, r: Heap, p: nat, q: nat, b: nat)
    requires TakesOver(h, r, p, q) && IsBlock(r, b) && Covers(h, b) && Covers(h, q)
    ensures Covers(r, b)
  {
    hide IsBlock;
  }

  lemma TakenOverPlaced(h: Heap, r: Heap, p: nat, q: nat, u: nat)
    requires TakesOver(h, r, p, q) && Placed(h, u)
    ensures Placed(r, u)
  {
    hide IsBlock;
  }

  lemma MergePartition(h: Heap, i: nat)
    requires Sound(h) && 1 <= i && i + 1 < |h.free| && Adjacent(h, i)
    ensures Partition(Merge(h, i))
  {
    var r := Merge(h, i);
    var p, q := h.free[i], h.free[i + 1];
    MergeBlocks(h, i);
    MergeAt(h, i);
    assert TakesOver(h, r, p, q);
    hide Circular, Merge, Covers, Placed;
    forall b: nat | IsBlock(r, b)
      ensures Covers(r, b)
    {
      TakenOverCovers(h, r, p, q, b);
    }
    forall u | u in r.own
      ensures Placed(r, u)
    {
      TakenOverPlaced(h, r, p, q, u);
    }
  }

  lemma MergeKeepsSound(h: Heap, i: nat)
    requires Sound(h) && 1 <= i && i + 1 < |h.free| && Adjacent(h, i)
    ensures Sound(Merge(h, i))
  {
    MergeCircular(h, i);
    MergePartition(h, i);
  }

  // ------------------------------------------------------------------ free

  /** The free block after position `k` starts where block `b` ends. */
  predicate TouchesNext(h: Heap, k: nat, b: nat)
    requires k < |h.free| && b < |h.mem|
  {
    k + 1 < |h.free| && b + h.mem[b].size == h.free[k + 1]
  }

  /** The free block at position `k` ends where block `b` starts. */
  predicate TouchesPrevious(h: Heap, k: nat, b: nat)
    requires k < |h.free| && h.free[k] < |h.mem|
  {
    h.free[k] + h.mem[h.free[k]].size == b
  }

  /** Where block `b` belongs in the free list: after position `k`. */
  predicate Belongs(h: Heap, k: nat, b: nat) {
    k < |h.free| && h.free[k] < b && (k + 1 < |h.free| ==> b < h.free[k + 1])
  }

  /** The heap after free(b): linked in and merged with what it touches. */
  function Freed(h: Heap, k: nat, b: nat): (r: Heap)
    requires k < |h.free| && h.free[k] < |h.mem| && b < |h.mem|
  {
    var l := Link(h, k, b);
    var m := if TouchesNext(h, k, b) then Merge(l, k + 1) else l;
    if TouchesPrevious(h, k, b) then Merge(m, k) else m
  }

  /** The linked heap before merging, and when merging applies to it. */
  lemma Linking(h: Heap, k: nat, b: nat)
    requires Sound(h) && b in h.used && Belongs(h, k, b)
    ensures var l := Link(h, k, b);
            && Sound(l) && |l.free| == |h.free| + 1 && l.free[k] == h.free[k] && l.free[k + 1] == b
            && Kept(h, l, h.free[k], b)
    ensures var l := Link(h, k, b);
            && (TouchesPrevious(h, k, b) ==> 1 <= k && Adjacent(l, k))
            && (TouchesNext(h, k, b) ==> k + 2 < |l.free| && Adjacent(l, k + 1))
  {
    LinkKeepsSound(h, k, b);
    LinkAt(h, k, b);
  }

  /** Merging the upper pair first leaves the lower pair as it was. */
  lemma MergingUp(h: Heap, i: nat)
    requires Sound(h) && 1 <= i && i + 1 < |h.free| && Adjacent(h, i)
    ensures Sound(Merge(h, i)) && |Merge(h, i).free| == |h.free| - 1
    ensures forall x :: 0 <= x <= i ==> Merge(h, i).free[x] == h.free[x]
    ensures forall x :: 0 <= x < i && Adjacent(h, x) ==> Adjacent(Merge(h, i), x)
  {
    MergeKeepsSound(h, i);
    MergeAt(h, i);
  }

  predicate Adjacent(h: Heap, i: nat) {
    i + 1 < |h.free| && h.free[i] < |h.mem| && h.free[i] + h.mem[h.free[i]].size == h.free[i + 1]
  }

  lemma FreedSound(h: Heap, k: nat, b: nat)
    requires Sound(h) && b in h.used && Belongs(h, k, b)
    ensures Sound(Freed(h, k, b))
  {
    hide Link, Merge, Adjacent, Partition, Kept;
    Linking(h, k, b);
    var l := Link(h, k, b);
    if TouchesNext(h, k, b) {
      MergingUp(l, k + 1);
      if TouchesPrevious(h, k, b) {
        MergingUp(Merge(l, k + 1), k);
      }
    } else if TouchesPrevious(h, k, b) {
      MergingUp(l, k);
    }
  }

  /** Nothing but the links and the freed block's status changes. */
  ghost predicate Kept(h: Heap, r: Heap, a: nat, b: nat) {
    && |r.mem| == |h.mem| && r.own.Keys == h.own.Keys && r.used == h.used - {b}
    && forall c :: 0 <= c < |h.mem| && c != a && c != b ==> r.mem[c] == h.mem[c]
  }

  lemma MergeKept(h: Heap, i: nat, h0: Heap, a: nat, b: nat)
    requires Circular(h) && i + 1 < |h.free| && Kept(h0, h, a, b) && (h.free[i] == a || h.free[i] == b)
    ensures Kept(h0, Merge(h, i), a, b)
    ensures |Merge(h, i).free| == |h.free| - 1 && forall x :: 0 <= x <= i ==> Merge(h, i).free[x] == h.free[x]
  {
  }

  /** free(b) takes `b` out of the allocated blocks and loses no unit. */
  lemma FreedConserves(h: Heap, k: nat, b: nat)
    requires Sound(h) && b in h.used && Belongs(h, k, b)
    ensures Kept(h, Freed(h, k, b), h.free[k], b)
    ensures h.free[k] in Freed(h, k, b).free
  {
    hide Kept, Link, Merge, Adjacent, Partition;
    Linking(h, k, b);
    var l := Link(h, k, b);
    if TouchesNext(h, k, b) {
      MergingUp(l, k + 1);
      MergeKept(l, k + 1, h, h.free[k], b);
      if TouchesPrevious(h, k, b) {
        MergeKept(Merge(l, k + 1), k, h, h.free[k], b);
        assert Freed(h, k, b).free[k] == h.free[k];
      }
    } else if TouchesPrevious(h, k, b) {
      MergeKept(l, k, h, h.free[k], b);
      assert Freed(h, k, b).free[k] == h.free[k];
    }
    assert Freed(h, k, b).free[k] == h.free[k];
  }

  lemma LinkGap(h: Heap, k: nat, b: nat, x: nat)
    requires Sound(h) && Coalesced(h) && b in h.used && Belongs(h, k, b) && 0 < x < |h.free|
    ensures var l := Link(h, k, b);
            && |l.free| == |h.free| + 1 && l.free[x] < |l.mem|
            && (Gap(l, x) <==> !(x == k && TouchesPrevious(h, k, b)) && !(x == k + 1 && TouchesNext(h, k, b)))
  {
    LinkAt(h, k, b);
    if x < k {
      assert Gap(h, x);
    } else if x == k {
      Apart(h, h.free[k], b);
    } else if x == k + 1 {
      Apart(h, b, h.free[k + 1]);
    } else {
      assert Gap(h, x - 1);
    }
  }

  /** Every neighbour pair except those listed has units in between. */
  ghost predicate GapsBut(h: Heap, s: set<nat>) {
    forall i :: 0 < i < |h.free| - 1 && i !in s ==> Gap(h, i)
  }

  lemma MergeGaps(h: Heap, i: nat, s: set<nat>)
    requires Sound(h) && 1 <= i && i + 1 < |h.free| && Adjacent(h, i)
    requires GapsBut(h, s) && i in s && forall x :: x in s ==> x <= i
    ensures GapsBut(Merge(h, i), s - {i})
  {
    var r := Merge(h, i);
    MergeAt(h, i);
    forall x | 0 < x < |r.free| - 1 && x !in s - {i}
      ensures Gap(r, x)
    {
      assert if x < i then Gap(h, x) else Gap(h, x + 1);
    }
  }

  /** The positions to merge once `b` is linked in after position `k`. */
  function Touching(h: Heap, k: nat, b: nat): (s: set<nat>)
    requires k < |h.free| && h.free[k] < |h.mem| && b < |h.mem|
    ensures k in s <==> TouchesPrevious(h, k, b)
    ensures k + 1 in s <==> TouchesNext(h, k, b)
    ensures s <= {k, k + 1}
  {
    (if TouchesPrevious(h, k, b) then {k} else {}) + (if TouchesNext(h, k, b) then {k + 1} else {})
  }

  lemma LinkGaps(h: Heap, k: nat, b: nat)
    requires Sound(h) && Coalesced(h) && b in h.used && Belongs(h, k, b)
    ensures GapsBut(Link(h, k, b), Touching(h, k, b))
  {
    var l := Link(h, k, b);
    LinkAt(h, k, b);
    hide Gap, Partition;
    forall x | 0 < x < |l.free| - 1 && x !in Touching(h, k, b)
      ensures Gap(l, x)
    {
      LinkGap(h, k, b, x);
    }
  }

  lemma FreedGaps(h: Heap, k: nat, b: nat)
    requires Sound(h) && Coalesced(h) && b in h.used && Belongs(h, k, b)
    ensures GapsBut(Freed(h, k, b), {})
  {
    hide Link, Merge, Adjacent, Gap, Linked, Partition, Coalesced, Kept, GapsBut, Touching;
    Linking(h, k, b);
    LinkGaps(h, k, b);
    var l := Link(h, k, b);
    var s := Touching(h, k, b);
    if TouchesNext(h, k, b) {
      MergingUp(l, k + 1);
      MergeGaps(l, k + 1, s);
      if TouchesPrevious(h, k, b) {
        MergeGaps(Merge(l, k + 1), k, s - {k + 1});
        assert s - {k + 1} - {k} == {};
      } else {
        assert s - {k + 1} == {};
      }
    } else if TouchesPrevious(h, k, b) {
      MergeGaps(l, k, s);
      assert s - {k} == {};
    } else {
      assert s == {};
    }
  }

  /** free() leaves no two adjacent free blocks. */
  lemma FreedCoalesced(h: Heap, k: nat, b: nat)
    requires Sound(h) && Coalesced(h) && b in h.used && Belongs(h, k, b)
    ensures Coalesced(Freed(h, k, b))
  {
    hide Freed, Gap, Partition;
    FreedSound(h, k, b);
    FreedGaps(h, k, b);
  }

  // ---------------------------------------------------------------- malloc

  /** Position `i` taken out of the list whole: an exact fit. */
  function Unlink(h: Heap, i: nat): (r: Heap) {
    if 1 <= i < |h.free| && h.free[i - 1] < |h.mem| then
      h.(mem := h.mem[h.free[i - 1] := h.mem[h.free[i - 1]].(ptr := Next(h, i))],
         free := Omit(h.free, i),
         used := h.used + {h.free[i]})
    else h
  }

  lemma UnlinkAt(h: Heap, i: nat)
    requires Circular(h) && 1 <= i < |h.free|
    ensures var f := Unlink(h, i).free;
            && |f| == |h.free| - 1
            && (forall k :: 0 <= k < |f| ==> f[k] == if k < i then h.free[k] else h.free[k + 1])
            && (forall x :: x in f <==> x in h.free && x != h.free[i])
  {
    OmitAt(h.free, i);
    hide Linked, Omit;
  }

  lemma UnlinkLinked(h: Heap, i: nat, k: nat)
    requires Circular(h) && 1 <= i < |h.free| && k < |h.free| - 1
    ensures Linked(Unlink(h, i), k)
  {
    UnlinkAt(h, i);
    if k < i - 1 {
      assert Linked(h, k) && h.free[k] < h.free[i - 1];
    } else if k >= i {
      assert Linked(h, k + 1) && h.free[i - 1] < h.free[k + 1];
    }
  }

  lemma UnlinkCircular(h: Heap, i: nat)
    requires Circular(h) && 1 <= i < |h.free|
    ensures Circular(Unlink(h, i))
  {
    var r := Unlink(h, i);
    UnlinkAt(h, i);
    forall k | 0 <= k < |r.free|
      ensures Linked(r, k)
    {
      UnlinkLinked(h, i, k);
    }
    hide Linked, Unlink;
    forall x, y | 0 <= x < y < |r.free|
      ensures r.free[x] < r.free[y]
    {
      assert h.free[if x < i then x else x + 1] < h.free[if y < i then y else y + 1];
    }
  }

  /** Same block sizes and owners: still a partition. */
  lemma SamePartition(h: Heap, r: Heap)
    requires Partition(h) && |r.mem| == |h.mem| && r.own == h.own
    requires forall x: nat :: x < |h.mem| ==> r.mem[x].size == h.mem[x].size
    requires forall x: nat :: IsBlock(r, x) <==> IsBlock(h, x)
    requires forall b :: b in r.used ==> BASE < b < |h.mem| && b !in r.free
    ensures Partition(r)
  {
    hide IsBlock;
    forall x: nat | IsBlock(r, x)
      ensures Covers(r, x)
    {
      assert Covers(h, x);
    }
    forall u | u in r.own
      ensures Placed(r, u)
    {
      assert Placed(h, u);
    }
  }

  lemma UnlinkKeepsSound(h: Heap, i: nat)
    requires Sound(h) && 1 <= i < |h.free|
    ensures Sound(Unlink(h, i))
  {
    UnlinkCircular(h, i);
    UnlinkAt(h, i);
    assert BASE < h.free[i];
    hide Linked, Covers, Placed;
    SamePartition(h, Unlink(h, i));
  }

  lemma UnlinkCoalesced(h: Heap, i: nat)
    requires Coalesced(h) && 1 <= i < |h.free|
    ensures Coalesced(Unlink(h, i))
  {
    var r := Unlink(h, i);
    UnlinkCircular(h, i);
    UnlinkAt(h, i);
    forall x | 0 < x < |r.free| - 1
      ensures Gap(r, x)
    {
      assert if x < i then Gap(h, x) else Gap(h, x + 1);
    }
  }

  /** The last `n` units of position `i` split off as an allocated block. */
  function Split(h: Heap, i: nat, n: nat): (r: Heap) {
    if i < |h.free| && h.free[i] < |h.mem| && n <= h.mem[h.free[i]].size && h.free[i] + h.mem[h.free[i]].size - n < |h.mem| then
      var p := h.free[i];
      var m := h.mem[p := h.mem[p].(size := h.mem[p].size - n)];
      var q := p + m[p].size;
      h.(mem := m[q := m[q].(size := n)],
         used := h.used + {q},
         own := map u | u in h.own :: if h.own[u] == p && q <= u then q else h.own[u])
    else h
  }

  lemma SplitAt(h: Heap, i: nat, n: nat)
    requires Sound(h) && 1 <= i < |h.free| && 0 < n < h.mem[h.free[i]].size
    ensures var p := h.free[i]; var q := p + h.mem[p].size - n; var r := Split(h, i, n);
            && IsBlock(h, p) && p < q < |h.mem| && !IsBlock(h, q) && q !in h.free && BASE < p
            && r.used == h.used + {q} && r.free == h.free && |r.mem| == |h.mem|
            && r.mem[p] == h.mem[p].(size := h.mem[p].size - n) && r.mem[q].size == n
            && (forall x: nat :: x < |h.mem| && x != p && x != q ==> r.mem[x] == h.mem[x])
            && r.own.Keys == h.own.Keys
            && (forall u :: u in h.own ==> r.own[u] == if h.own[u] == p && q <= u then q else h.own[u])
  {
    var p := h.free[i];
    assert IsBlock(h, p) && Covers(h, p);
    var q := p + h.mem[p].size - n;
    assert h.own[q] == p && Placed(h, q);
    assert IsBlock(h, q) ==> Covers(h, q);
  }

  lemma SplitKeepsSound(h: Heap, i: nat, n: nat)
    requires Sound(h) && 1 <= i < |h.free| && 0 < n < h.mem[h.free[i]].size
    ensures Sound(Split(h, i, n))
  {
    SplitCircular(h, i, n);
    SplitPartition(h, i, n);
  }

  lemma SplitCircular(h: Heap, i: nat, n: nat)
    requires Sound(h) && 1 <= i < |h.free| && 0 < n < h.mem[h.free[i]].size
    ensures Circular(Split(h, i, n))
  {
    var r := Split(h, i, n);
    SplitAt(h, i, n);
    hide Split, Partition;
    forall k | 0 <= k < |r.free|
      ensures Linked(r, k)
    {
      assert Linked(h, k);
    }
  }

  lemma SplitPartition(h: Heap, i: nat, n: nat)
    requires Sound(h) && 1 <= i < |h.free| && 0 < n < h.mem[h.free[i]].size
    ensures Partition(Split(h, i, n))
  {
    hide Split, IsBlock, Linked, Covers, Placed, SplitsOff;
    var r, p := Split(h, i, n), h.free[i];
    var q := p + h.mem[p].size - n;
    SplitExchange(h, i, n);
    forall x: nat | IsBlock(r, x)
      ensures Covers(r, x)
    {
      SplitCovers(h, r, p, q, n, x);
    }
    forall u | u in r.own
      ensures Placed(r, u)
    {
      SplitPlaced(h, r, p, q, n, u);
    }
  }

  lemma SplitExchange(h: Heap, i: nat, n: nat)
    requires Sound(h) && 1 <= i < |h.free| && 0 < n < h.mem[h.free[i]].size
    ensures var r, p := Split(h, i, n), h.free[i]; var q := p + h.mem[p].size - n;
            && SplitsOff(h, r, p, q, n) && r.own.Keys == h.own.Keys
            && (forall x: nat :: IsBlock(r, x) <==> IsBlock(h, x) || x == q)
            && IsBlock(h, p) && (forall b :: b in r.used ==> BASE < b < |r.mem| && b !in r.free)
  {
    SplitAt(h, i, n);
    hide Split;
  }

  /** The split read as an exchange: `q` takes the last `n` units of `p`. */
  ghost predicate SplitsOff(h: Heap, r: Heap, p: nat, q: nat, n: nat) {
    && p < q < |h.mem| && |r.mem| == |h.mem| && 0 < n < h.mem[p].size && q == p + h.mem[p].size - n
    && r.mem[p].size == h.mem[p].size - n && r.mem[q].size == n
    && (forall x: nat :: x < |h.mem| && x != p && x != q ==> r.mem[x] == h.mem[x])
    && r.own.Keys == h.own.Keys
    && (forall u :: u in h.own ==> r.own[u] == if h.own[u] == p && q <= u then q else h.own[u])
    && IsBlock(h, p) && !IsBlock(h, q) && (forall x: nat :: IsBlock(r, x) <==> IsBlock(h, x) || x == q)
  }

  lemma SplitCovers(h: Heap, r: Heap, p: nat, q: nat, n: nat, x: nat)
    requires SplitsOff(h, r, p, q, n) && IsBlock(r, x) && Covers(h, if x == q then p else x)
    ensures Covers(r, x)
  {
    hide IsBlock;
  }

  lemma SplitPlaced(h: Heap, r: Heap, p: nat, q: nat, n: nat, u: nat)
    requires SplitsOff(h, r, p, q, n) && Placed(h, u)
    ensures Placed(r, u)
  {
    hide IsBlock;
  }

  lemma SplitCoalesced(h: Heap, i: nat, n: nat)
    requires Sound(h) && Coalesced(h) && 1 <= i < |h.free| && 0 < n < h.mem[h.free[i]].size
    ensures Coalesced(Split(h, i, n))
  {
    var r := Split(h, i, n);
    SplitCircular(h, i, n);
    SplitAt(h, i, n);
    hide Split, Partition;
    forall x | 0 < x < |r.free| - 1
      ensures Gap(r, x)
    {
      assert Gap(h, x);
    }
  }

  function Region(a: nat, n: nat): (r: map<nat, nat>)
    ensures forall u :: u in r <==> a <= u < a + n
    ensures forall u :: u in r ==> r[u] == a
  {
    if n == 0 then map[] else Region(a, n - 1)[a + n - 1 := a]
  }

  /** `n` fresh units at `a`, as one allocated block: what morecore hands to free. */
  function Grown(h: Heap, a: nat, n: nat): (r: Heap)
    requires a < |h.mem|
  {
    h.(mem := h.mem[a := h.mem[a].(size := n)],
       used := h.used + {a},
       own := h.own + Region(a, n))
  }

  /** sbrk hands out units above everything handed out before. */
  ghost predicate Fresh(h: Heap, a: nat, n: nat) {
    BASE < a && a + n <= |h.mem| && forall u :: u in h.own ==> u < a
  }

  lemma GrownKeepsSound(h: Heap, a: nat, n: nat)
    requires Sound(h) && Fresh(h, a, n) && 0 < n
    ensures Sound(Grown(h, a, n)) && (Coalesced(h) ==> Coalesced(Grown(h, a, n)))
    ensures a !in h.used && a !in h.free
  {
    var r := Grown(h, a, n);
    forall b: nat | IsBlock(h, b)
      ensures b < a && b + h.mem[b].size <= a
    {
      assert Covers(h, b);
      assert h.own[b + h.mem[b].size - 1] == b;
    }
    assert forall x: nat :: IsBlock(r, x) <==> IsBlock(h, x) || x == a;
    hide IsBlock;
    assert Circular(r) by {
      hide Partition;
      forall k | 0 <= k < |r.free|
        ensures Linked(r, k)
      {
        assert Linked(h, k);
      }
    }
    assert Partition(r) by {
      hide Circular;
      forall x: nat | IsBlock(r, x)
        ensures Covers(r, x)
      {
        assert x != a ==> Covers(h, x);
      }
      forall u | u in r.own
        ensures Placed(r, u)
      {
        assert !(a <= u < a + n) ==> Placed(h, u);
      }
    }
    if Coalesced(h) {
      forall x | 0 < x < |r.free| - 1
        ensures Gap(r, x)
      {
        assert Gap(h, x);
      }
    }
  }

  // -------------------------------------------------- umalloc.c, in place

  /** The place of an allocated block in the list. */
  lemma PlaceExists(h: Heap, b: nat) returns (k: nat)
    requires Sound(h) && b in h.used
    ensures Belongs(h, k, b)
  {
    k := 0;
    while k + 1 < |h.free| && h.free[k + 1] < b
      invariant k < |h.free| && h.free[k] < b
    {
      k := k + 1;
    }
    if k + 1 < |h.free| {
      assert h.free[k + 1] in h.free;
    }
  }

  /** Steps along the circle of `n` positions from `i` to `k`. */
  function Steps(i: nat, k: nat, n: nat): (d: nat)
    requires i < n && k < n
    ensures d < n && (d == 0 <==> i == k)
  {
    if i <= k then k - i else k + n - i
  }

  function After(i: nat, n: nat): (j: nat)
    requires i < n
    ensures j < n
  {
    if i + 1 < n then i + 1 else 0
  }

  /** The two conditional updates at the end of free(). */
  function FreeUpdates(mem: seq<Header>, p: nat, b: nat): (r: seq<Header>)
    requires p < |mem| && b < |mem| && mem[p].ptr < |mem|
  {
    var n := mem[p].ptr;
    var m := if b + mem[b].size == n then mem[b := Header(mem[n].ptr, mem[b].size + mem[n].size)]
             else mem[b := mem[b].(ptr := n)];
    if p + m[p].size == b then m[p := Header(m[b].ptr, m[p].size + m[b].size)]
    else m[p := m[p].(ptr := b)]
  }

  lemma FreeUpdatesAreFreed(h: Heap, k: nat, b: nat)
    requires Sound(h) && b in h.used && Belongs(h, k, b)
    ensures h.free[k] < |h.mem| && h.mem[h.free[k]].ptr < |h.mem|
    ensures FreeUpdates(h.mem, h.free[k], b) == Freed(h, k, b).mem
  {
    var p, l := h.free[k], Link(h, k, b);
    assert Linked(h, k) && p != b;
    LinkAt(h, k, b);
    assert forall i :: 0 <= i < |h.free| ==> h.free[i] < |h.mem| && h.free[i] != b;
    assert k + 1 < |h.free| ==> p < h.free[k + 1];
    assert k + 1 == |h.free| ==> Next(h, k) == BASE < b;
    hide Sound, Linked;
    if TouchesNext(h, k, b) {
      UpdatesUp(h, k, b);
    } else {
      UpdatesPlain(h, k, b);
    }
  }

  lemma UpdatesUp(h: Heap, k: nat, b: nat)
    requires k + 1 < |h.free| && b < |h.mem| && forall i :: 0 <= i < |h.free| ==> h.free[i] < |h.mem| && h.free[i] != b
    requires h.free[k] < h.free[k + 1] && h.mem[h.free[k]].ptr == h.free[k + 1] && TouchesNext(h, k, b)
    ensures FreeUpdates(h.mem, h.free[k], b) == Freed(h, k, b).mem
  {
    var p, q, l := h.free[k], h.free[k + 1], Link(h, k, b);
    assert l.free[k] == p && l.free[k + 1] == b && l.free[k + 2] == q;
    var m := Merge(l, k + 1);
    assert m.mem == l.mem[b := Header(h.mem[q].ptr, h.mem[b].size + h.mem[q].size)];
    if TouchesPrevious(h, k, b) {
      assert m.free[k] == p && m.free[k + 1] == b;
    }
  }

  lemma UpdatesPlain(h: Heap, k: nat, b: nat)
    requires k < |h.free| && b < |h.mem| && forall i :: 0 <= i < |h.free| ==> h.free[i] < |h.mem| && h.free[i] != b
    requires h.mem[h.free[k]].ptr == Next(h, k) < |h.mem| && b + h.mem[b].size != Next(h, k) && !TouchesNext(h, k, b)
    ensures FreeUpdates(h.mem, h.free[k], b) == Freed(h, k, b).mem
  {
    var p, l := h.free[k], Link(h, k, b);
    if TouchesPrevious(h, k, b) {
      assert l.free[k] == p && l.free[k + 1] == b;
    }
  }

  datatype Sbrk = NoMemory | At(addr: nat)
  datatype Result = Null | Fault | Ptr(addr: nat)

  class Allocator {
    var mem: seq<Header>
    var freep: nat
    ghost var free: seq<nat>
    ghost var used: set<nat>
    ghost var own: map<nat, nat>

    ghost function View(): Heap
      reads this
    {
      Heap(mem, free, used, own)
    }

    /** Before the first malloc `freep` is NULL and nothing has been handed out. */
    ghost predicate Valid()
      reads this
    {
      && |mem| > BASE
      && if freep == 0 then used == {} && own == map[] else Sound(View()) && Coalesced(View()) && freep in free
    }

    constructor (mem: seq<Header>)
      requires |mem| > BASE
      ensures Valid() && this.mem == mem && freep == 0
    {
      this.mem := mem;
      freep, free, used, own := 0, [BASE], {}, map[];
    }

    /** free()'s search: the list element after which the block belongs. */
    method FindPlace(bp: nat) returns (p: nat, ghost k: nat)
      requires Valid() && freep != 0 && bp in used
      ensures Belongs(View(), k, bp) && p == free[k]
    {
      ghost var h := View();
      k := PlaceExists(h, bp);
      p := freep;
      ghost var i :| 0 <= i < |free| && free[i] == freep;
      assert Linked(h, i) && Linked(h, k);
      hide Partition, Coalesced;
      while !(bp > p && bp < mem[p].ptr)
        invariant 0 <= i < |free| && p == free[i]
        invariant Linked(h, i)
        decreases Steps(i, k, |free|)
      {
        if p >= mem[p].ptr && (bp > p || bp < mem[p].ptr) {
          break;
        }
        p, i := mem[p].ptr, After(i, |free|);
        assert Linked(h, i);
      }
      assert i == k;
    }

    /** The stores at the end of free(). */
    method StoreFree(p: nat, bp: nat)
      requires p < |mem| && bp < |mem| && mem[p].ptr < |mem|
      modifies this`mem
      ensures mem == FreeUpdates(old(mem), p, bp)
    {
      if bp + mem[bp].size == mem[p].ptr {
        var n := mem[p].ptr;
        mem := mem[bp := Header(mem[n].ptr, mem[bp].size + mem[n].size)];
      } else {
        mem := mem[bp := mem[bp].(ptr := mem[p].ptr)];
      }
      if p + mem[p].size == bp {
        mem := mem[p := Header(mem[bp].ptr, mem[p].size + mem[bp].size)];
      } else {
        mem := mem[p := mem[p].(ptr := bp)];
      }
    }

    /** free() returns an allocated block to the list: linked in address order
        after position `k`, merged with the free blocks it touches; every other
        block keeps its header and no unit is lost. */
    method Free(ap: nat) returns (ghost k: nat)
      requires Valid() && freep != 0 && ap >= 1 && ap - 1 in used
      modifies this
      ensures Valid() && freep != 0 && used == old(used) - {ap - 1} && own.Keys == old(own.Keys)
      ensures |mem| == |old(mem)| && forall c :: c in used ==> c < |mem| && mem[c] == old(mem)[c]
      ensures Belongs(old(View()), k, ap - 1) && old(free)[k] < |mem| && freep == old(free)[k]
      ensures View() == Freed(old(View()), k, ap - 1)
    {
      var bp := ap - 1;
      ghost var h := View();
      var p;
      p, k := FindPlace(bp);
      FreedSound(h, k, bp);
      FreedCoalesced(h, k, bp);
      FreedConserves(h, k, bp);
      FreeUpdatesAreFreed(h, k, bp);
      assert p !in used && forall c :: c in used ==> BASE < c < |mem|;
      assert freep != 0 && p >= BASE;
      hide Sound, Coalesced, Freed, FreeUpdates;
      StoreFree(p, bp);
      freep := p;
      ghost var r := Freed(h, k, bp);
      free, used, own := r.free, r.used, r.own;
    }

    /** malloc()'s exact fit: position `i` leaves the list. */
    method TakeAll(prevp: nat, p: nat, ghost i: nat)
      requires Valid() && freep != 0 && 1 <= i < |free| && prevp == free[i - 1] && p == free[i]
      modifies this
      ensures Valid() && freep == prevp && View() == Unlink(old(View()), i)
      ensures p !in old(used) && used == old(used) + {p} && own == old(own) && |mem| == |old(mem)|
      ensures forall c :: 0 <= c < |mem| ==> mem[c].size == old(mem)[c].size
    {
      ghost var h := View();
      assert Linked(h, i);
      UnlinkKeepsSound(h, i);
      UnlinkCoalesced(h, i);
      UnlinkAt(h, i);
      ghost var r := Unlink(h, i);
      assert r.free[i - 1] == prevp;
      hide Sound, Coalesced;
      mem := mem[prevp := mem[prevp].(ptr := mem[p].ptr)];
      free, used := r.free, r.used;
      freep := prevp;
    }

    /** malloc()'s split: the last `nunits` units of position `i` are taken. */
    method TakeTail(prevp: nat, p0: nat, nunits: nat, ghost i: nat) returns (p: nat)
      requires Valid() && freep != 0 && 1 <= i < |free| && prevp == free[i - 1] && p0 == free[i]
      requires p0 < |mem| && 0 < nunits < mem[p0].size
      modifies this
      ensures Valid() && freep == prevp && View() == Split(old(View()), i, nunits)
      ensures p == p0 + old(mem)[p0].size - nunits
      ensures p !in old(used) && used == old(used) + {p} && own.Keys == old(own.Keys)
      ensures p < |mem| == |old(mem)| && mem[p].size == nunits
      ensures forall c :: c in old(used) ==> c < |mem| && mem[c] == old(mem)[c]
    {
      ghost var h := View();
      SplitKeepsSound(h, i, nunits);
      SplitCoalesced(h, i, nunits);
      SplitAt(h, i, nunits);
      assert h.free[i - 1] in h.free && p0 !in used && forall c :: c in used ==> c < |mem|;
      hide Sound, Coalesced;
      ghost var r := Split(h, i, nunits);
      mem := mem[p0 := mem[p0].(size := mem[p0].size - nunits)];
      p := p0 + mem[p0].size;
      mem := mem[p := mem[p].(size := nunits)];
      assert mem == r.mem;
      hide Split;
      free, used, own := r.free, r.used, r.own;
      freep := prevp;
    }

    /** morecore(): at least `MORECORE` units from sbrk, given to free(). The list
        then holds a block of at least that size. */
    method Morecore(nu: nat, sbrk: Sbrk) returns (r: Result)
      requires Valid() && freep != 0 && 0 < nu
      requires sbrk.At? ==> Fresh(View(), sbrk.addr, Max(nu, MORECORE))
      modifies this
      ensures r.Fault? <==> SbrkArg(Max(nu, MORECORE)) <= 0
      ensures r.Null? <==> SbrkArg(Max(nu, MORECORE)) > 0 && sbrk.NoMemory?
      ensures !r.Ptr? ==> unchanged(this)
      ensures r.Ptr? ==> Valid() && freep != 0 && r.addr == freep && |mem| == |old(mem)|
      ensures r.Ptr? ==> used == old(used) && own.Keys == old(own.Keys) + Region(sbrk.addr, Max(nu, MORECORE)).Keys
      ensures r.Ptr? ==> forall c :: c in used ==> c < |mem| && mem[c] == old(mem)[c]
      ensures r.Ptr? ==> exists j :: 0 <= j < |free| && free[j] < |mem| && mem[free[j]].size >= nu
    {
      hide SbrkArg, Region, Freed;
      var n := Max(nu, MORECORE);
      if SbrkArg(n) <= 0 {
        return Fault;
      }
      match sbrk
      case NoMemory => return Null;
      case At(a) =>
        ghost var h := View();
        GrownKeepsSound(h, a, n);
        assert forall c :: c in used ==> c < |mem|;
        hide Sound, Coalesced;
        mem := mem[a := mem[a].(size := n)];
        ghost var g := Grown(h, a, n);
        used, own := g.used, g.own;
        ghost var k := Free(a + 1);
        FreedHoldsBlock(g, k, a);
        return Ptr(freep);
    }

    /** morecore() as the search loop sees it. */
    method Refill(nunits: nat, sbrk: Sbrk) returns (m: Result, ghost f: nat)
      requires Valid() && freep != 0 && 0 < nunits
      requires sbrk.At? ==> Fresh(View(), sbrk.addr, Max(nunits, MORECORE))
      modifies this
      ensures m.Fault? <==> SbrkArg(Max(nunits, MORECORE)) <= 0
      ensures m.Null? ==> sbrk.NoMemory?
      ensures !m.Ptr? ==> View() == old(View()) && freep == old(freep)
      ensures m.Ptr? ==> Valid() && freep != 0 && m.addr == freep && f < |free| && free[f] == freep
      ensures m.Ptr? ==> GrownBy(old(View()), View(), sbrk, nunits) && !NothingFits(View(), nunits)
      ensures m.Ptr? ==> Searched(View(), f, After(f, |free|), nunits)
    {
      hide SbrkArg, Region, Sound, Coalesced, Steps;
      f := 0;
      ghost var h0 := View();
      m := Morecore(nunits, sbrk);
      if m.Ptr? {
        f :| 0 <= f < |free| && free[f] == freep;
        SearchStart(View(), f, nunits);
        GrownByMorecore(h0, View(), sbrk, nunits);
      }
    }

    /** malloc()'s loop over a list that exists. */
    method Search(nunits: nat, sbrk: Sbrk) returns (r: Result, ghost grew: bool, ghost from: Heap, ghost start: nat)
      requires Valid() && freep != 0 && 0 < nunits
      requires sbrk.At? ==> Fresh(View(), sbrk.addr, Max(nunits, MORECORE))
      modifies this
      ensures grew ==> sbrk.At?
      ensures r.Ptr? ==> Valid() && freep != 0 && Allocated(old(View()), View(), r.addr, nunits)
      ensures r.Ptr? ==> TookFirstFit(from, start, View(), freep, r.addr, nunits)
      ensures if grew then GrownBy(old(View()), from, sbrk, nunits) else from == old(View()) && start == old(freep)
      ensures r.Ptr? ==> own.Keys == old(own.Keys) + if grew then Region(sbrk.addr, Max(nunits, MORECORE)).Keys else {}
      ensures !r.Ptr? ==> View() == old(View()) && freep == old(freep) && !grew
      ensures grew || !r.Ptr? ==> NothingFits(old(View()), nunits)
      ensures r.Null? ==> sbrk.NoMemory?
      ensures r.Fault? ==> SbrkArg(Max(nunits, MORECORE)) <= 0
    {
      hide Searched, NothingFits, GrownBy, Sound, Coalesced, Region, SbrkArg, Steps, Allocated, TookFirstFit;
      grew, from, start := false, View(), freep;
      ghost var h0 := View();
      ghost var f :| 0 <= f < |free| && free[f] == freep;
      FollowLink(View(), f);
      SearchStart(View(), f, nunits);
      var prevp := freep;
      var p := mem[prevp].ptr;
      ghost var a, b := f, After(f, |free|);
      while true
        invariant Valid() && freep != 0 && (!grew ==> View() == h0 && freep == old(freep))
        invariant 0 <= a < |free| && b == After(a, |free|) && prevp == free[a] && p == free[b] < |mem|
        invariant 0 <= f < |free| && free[f] == freep
        invariant Searched(View(), f, b, nunits) && from == View() && start == freep
        invariant grew ==> NothingFits(h0, nunits) && !NothingFits(View(), nunits) && GrownBy(h0, View(), sbrk, nunits)
        decreases if grew then 0 else 1, Steps(b, f, |free|)
      {
        if mem[p].size >= nunits {
          GrownKeys(h0, View(), sbrk, nunits, grew);
          p := Take(prevp, p, nunits, a, b, f, h0, grew, sbrk);
          return Ptr(p + 1), grew, from, start;
        }
        SearchNext(View(), freep, f, b, nunits);
        if p == freep {
          assert !grew;
          var m;
          m, f := Refill(nunits, sbrk);
          if !m.Ptr? {
            return m, grew, from, start;
          }
          grew, p, b := true, m.addr, f;
          from, start := View(), freep;
        }
        FollowLink(View(), b);
        prevp, a := p, b;
        p, b := mem[p].ptr, After(b, |free|);
      }
    }

    /** malloc(): first fit from `freep`. A block that fits is taken without
        calling sbrk; otherwise sbrk is called once, and what it grants is enough.
        The result is NULL only when nothing fits and sbrk has no memory. */
    method Malloc(nbytes: nat, sbrk: Sbrk) returns (r: Result, ghost grew: bool, ghost from: Heap, ghost start: nat)
      requires Valid() && nbytes < WORD_LIMIT
      requires sbrk.At? ==> Fresh(View(), sbrk.addr, Max(Units(nbytes), MORECORE))
      modifies this
      ensures grew ==> sbrk.At?
      ensures r.Ptr? ==> Valid() && freep != 0 && Allocated(old(View()), View(), r.addr, Units(nbytes))
      ensures r.Ptr? ==> TookFirstFit(from, start, View(), freep, r.addr, Units(nbytes))
      ensures old(freep) != 0 ==>
                if grew then GrownBy(old(View()), from, sbrk, Units(nbytes)) else from == old(View()) && start == old(freep)
      ensures r.Ptr? ==> own.Keys == old(own.Keys) +
                         if grew then Region(sbrk.addr, Max(Units(nbytes), MORECORE)).Keys else {}
      ensures !r.Ptr? ==> Valid() && used == old(used) && own == old(own) && !grew
      ensures grew || !r.Ptr? ==> old(freep) == 0 || NothingFits(old(View()), Units(nbytes))
      ensures r.Null? ==> sbrk.NoMemory?
      ensures r.Fault? ==> SbrkArg(Max(Units(nbytes), MORECORE)) <= 0
      ensures r.Ptr? ==> 0 <= r.addr - 1 < |mem| && HoldsBytes(mem[r.addr - 1].size, nbytes)
      ensures nbytes + UNIT - 1 < WORD_LIMIT && old(freep) != 0 ==>
                (r.Ptr? && !grew <==> !NoRoomFor(old(View()), nbytes)) && (r.Fault? ==> nbytes > 0x7FFF_FFF0)
    {
      hide Units, Region, SbrkArg, TookFirstFit, GrownBy, NoRoomFor, NothingFits, Allocated, HoldsBytes, Sound, Coalesced, Fresh;
      ghost var h0 := View();
      InBytes(h0, nbytes);
      Prepare();
      ghost var h := View();
      FreshFirst(h0, h, sbrk, Max(Units(nbytes), MORECORE));
      r, grew, from, start := Search(Units(nbytes), sbrk);
      if r.Ptr? {
        AllocatedSize(h0, h, View(), r.addr, Units(nbytes));
        FitIsThere(from, start, View(), freep, r.addr, Units(nbytes));
      }
    }

    /** malloc()'s first call makes the list of `base` alone. */
    method Prepare()
      requires Valid()
      modifies this
      ensures Valid() && freep != 0 && FirstUse(old(View()), View())
      ensures old(freep) != 0 ==> unchanged(this)
    {
      if freep == 0 {
        mem := mem[BASE := Header(BASE, 0)];
        freep, free := BASE, [BASE];
        FirstHeap(View());
      }
    }

    /** malloc()'s last step, at a position that fits. */
    method Take(prevp: nat, p0: nat, nunits: nat, ghost a: nat, ghost b: nat, ghost f: nat, ghost h0: Heap, ghost grew: bool, ghost sbrk: Sbrk)
      returns (p: nat)
      requires Valid() && freep != 0 && 0 <= a < |free| && b == After(a, |free|) && prevp == free[a] && p0 == free[b] < |mem|
      requires 0 < nunits <= mem[p0].size && (if grew then GrownBy(h0, View(), sbrk, nunits) else View() == h0)
      requires f < |free| && free[f] == freep && Searched(View(), f, b, nunits)
      modifies this
      ensures Valid() && freep != 0 && Allocated(h0, View(), p + 1, nunits)
      ensures own.Keys == old(own.Keys) && TookFirstFit(old(View()), old(freep), View(), freep, p + 1, nunits)
    {
      assert b >= 1 && forall c :: c in used ==> c < |mem|;
      assert prevp >= BASE;
      p := p0;
      assert FitAt(View(), freep, f, b, nunits);
      hide Sound, Coalesced, Unlink, Split, FitAt;
      if mem[p].size == nunits {
        TakeAll(prevp, p, b);
      } else {
        p := TakeTail(prevp, p, nunits, b);
      }
    }
  }

  /** `h` is `h0` after morecore: the same allocated blocks, more units. */
  ghost predicate GrownBy(h0: Heap, h: Heap, sbrk: Sbrk, nunits: nat) {
    && sbrk.At? && |h.mem| == |h0.mem| && h.used == h0.used
    && h.own.Keys == h0.own.Keys + Region(sbrk.addr, Max(nunits, MORECORE)).Keys
    && forall c :: c in h.used ==> c < |h.mem| && h.mem[c] == h0.mem[c]
  }

  lemma GrownKeys(h0: Heap, h: Heap, sbrk: Sbrk, nunits: nat, grew: bool)
    requires if grew then GrownBy(h0, h, sbrk, nunits) else h == h0
    ensures grew ==> sbrk.At?
    ensures h.own.Keys == h0.own.Keys + if grew then Region(sbrk.addr, Max(nunits, MORECORE)).Keys else {}
  {
  }

  lemma GrownByMorecore(h0: Heap, h: Heap, sbrk: Sbrk, nunits: nat)
    requires sbrk.At? && |h.mem| == |h0.mem| && h.used == h0.used
    requires h.own.Keys == h0.own.Keys + Region(sbrk.addr, Max(nunits, MORECORE)).Keys
    requires forall c :: c in h.used ==> c < |h.mem| && h.mem[c] == h0.mem[c]
    requires exists j :: 0 <= j < |h.free| && h.free[j] < |h.mem| && h.mem[h.free[j]].size >= nunits
    ensures GrownBy(h0, h, sbrk, nunits) && !NothingFits(h, nunits)
  {
  }

  lemma SearchStart(h: Heap, f: nat, n: nat)
    requires f < |h.free|
    ensures Searched(h, f, After(f, |h.free|), n)
  {
  }

  /** One more position found too small: on to the next, or all were. */
  lemma SearchNext(h: Heap, freep: nat, f: nat, b: nat, n: nat)
    requires Sound(h) && Searched(h, f, b, n) && h.free[b] < |h.mem| && h.mem[h.free[b]].size < n && h.free[f] == freep
    ensures h.free[b] == freep <==> b == f
    ensures if b == f then NothingFits(h, n) else Searched(h, f, After(b, |h.free|), n)
    ensures b != f ==> Steps(After(b, |h.free|), f, |h.free|) == Steps(b, f, |h.free|) - 1
  {
  }

  lemma FollowLink(h: Heap, b: nat)
    requires Sound(h) && b < |h.free|
    ensures h.free[b] < |h.mem| && h.mem[h.free[b]].ptr == h.free[After(b, |h.free|)] < |h.mem|
  {
    assert Linked(h, b);
  }

  /** nunits = (nbytes + sizeof(Header) - 1) / sizeof(Header) + 1, in uint arithmetic. */
  function Units(nbytes: nat): (n: nat)
    ensures n >= 1
  {
    (nbytes + UNIT - 1) % WORD_LIMIT / UNIT + 1
  }

  /** The block behind the header is big enough exactly when `nbytes + 7` does not
      wrap; malloc(0xFFFFFFFF) gets a header and no byte. */
  lemma EnoughUnless32BitWrap(nbytes: nat)
    requires nbytes < WORD_LIMIT
    ensures (Units(nbytes) - 1) * UNIT >= nbytes <==> nbytes + UNIT - 1 < WORD_LIMIT
    ensures Units(0xFFFF_FFFF) == 1
  {
  }

  /** It is the least count of units whose bytes behind the header are enough; the last
      seven sizes wrap around and get the header only. */
  lemma UnitsLeast(nbytes: nat, n: nat)
    requires nbytes < WORD_LIMIT && n >= 1
    ensures nbytes + UNIT - 1 < WORD_LIMIT ==> ((n - 1) * UNIT >= nbytes <==> n >= Units(nbytes))
    ensures nbytes + UNIT - 1 >= WORD_LIMIT ==> Units(nbytes) == 1
  {
  }

  /** A block of `size` units has a header and `nbytes` behind it, and wastes less than
      a unit. */
  predicate HoldsBytes(size: nat, nbytes: nat) {
    if nbytes + UNIT - 1 < WORD_LIMIT then nbytes <= (size - 1) * UNIT < nbytes + UNIT else size == 1
  }

  lemma InBytes(h: Heap, nbytes: nat)
    requires nbytes < WORD_LIMIT
    ensures HoldsBytes(Units(nbytes), nbytes)
    ensures nbytes + UNIT - 1 < WORD_LIMIT ==> (NothingFits(h, Units(nbytes)) <==> NoRoomFor(h, nbytes))
    ensures nbytes + UNIT - 1 < WORD_LIMIT ==> (SbrkArg(Max(Units(nbytes), MORECORE)) > 0 <==> nbytes <= 0x7FFF_FFF0)
  {
    UnitsLeast(nbytes, Units(nbytes));
    if nbytes + UNIT - 1 < WORD_LIMIT {
      NothingFitsInBytes(h, nbytes);
      SbrkPositiveExactly(nbytes);
      if Units(nbytes) > 1 {
        UnitsLeast(nbytes, Units(nbytes) - 1);
      }
    }
  }

  /** The heap is the same but for the list that did not exist. */
  ghost predicate FirstUse(h0: Heap, h: Heap) {
    h == h0 || (h0.used == {} && h.used == {} && h.own == h0.own && |h.mem| == |h0.mem|)
  }

  lemma FreshFirst(h0: Heap, h: Heap, sbrk: Sbrk, n: nat)
    requires FirstUse(h0, h)
    ensures sbrk.At? && Fresh(h0, sbrk.addr, n) ==> Fresh(h, sbrk.addr, n)
  {
  }

  lemma AllocatedSize(h0: Heap, h: Heap, r: Heap, addr: nat, n: nat)
    requires FirstUse(h0, h) && Allocated(h, r, addr, n)
    ensures Allocated(h0, r, addr, n) && 0 <= addr - 1 < |r.mem| && r.mem[addr - 1].size == n
  {
  }

  lemma FitIsThere(h: Heap, freep: nat, r: Heap, freep': nat, addr: nat, n: nat)
    requires TookFirstFit(h, freep, r, freep', addr, n)
    ensures !NothingFits(h, n)
  {
    var f: nat, i: nat :| FitAt(h, freep, f, i, n);
    assert h.mem[h.free[i]].size >= n;
  }

  /** No free block holds a header and `nbytes` behind it. */
  ghost predicate NoRoomFor(h: Heap, nbytes: nat) {
    forall i :: 0 <= i < |h.free| && h.free[i] < |h.mem| ==>
      h.mem[h.free[i]].size == 0 || (h.mem[h.free[i]].size - 1) * UNIT < nbytes
  }

  lemma NothingFitsInBytes(h: Heap, nbytes: nat)
    requires nbytes + UNIT - 1 < WORD_LIMIT
    ensures NothingFits(h, Units(nbytes)) <==> NoRoomFor(h, nbytes)
  {
    forall i | 0 <= i < |h.free| && h.free[i] < |h.mem|
      ensures h.mem[h.free[i]].size < Units(nbytes) <==>
              h.mem[h.free[i]].size == 0 || (h.mem[h.free[i]].size - 1) * UNIT < nbytes
    {
      if h.mem[h.free[i]].size > 0 {
        UnitsLeast(nbytes, h.mem[h.free[i]].size);
      }
    }
  }

  /** A request reaches sbrk as a positive amount exactly below 2^31 - 15 bytes. */
  lemma SbrkPositiveExactly(nbytes: nat)
    requires nbytes + UNIT - 1 < WORD_LIMIT
    ensures SbrkArg(Max(Units(nbytes), MORECORE)) > 0 <==> nbytes <= 0x7FFF_FFF0
  {
  }

  ghost predicate NothingFits(h: Heap, n: nat) {
    forall i :: 0 <= i < |h.free| && h.free[i] < |h.mem| ==> h.mem[h.free[i]].size < n
  }

  /** Every position strictly between `freep` and position `b` is too small. */
  ghost predicate Searched(h: Heap, f: nat, b: nat, n: nat) {
    && f < |h.free| && b < |h.free|
    && forall i :: 0 <= i < |h.free| && h.free[i] < |h.mem| && Steps(i, f, |h.free|) > Steps(b, f, |h.free|) ==>
         h.mem[h.free[i]].size < n
  }

  /** `r` and `freep'` come from `h` by taking `n` units at the end of the first block
      after `freep` that has them; `addr` is their user part. */
  ghost predicate TookFirstFit(h: Heap, freep: nat, r: Heap, freep': nat, addr: nat, n: nat) {
    exists f: nat, i: nat :: FitAt(h, freep, f, i, n) && freep' == h.free[i - 1] && addr == h.free[i] + h.mem[h.free[i]].size - n + 1
                   && r == if h.mem[h.free[i]].size == n then Unlink(h, i) else Split(h, i, n)
  }

  /** Position `i` is the first that fits after position `f`, where `freep` is. */
  ghost predicate FitAt(h: Heap, freep: nat, f: nat, i: nat, n: nat) {
    && f < |h.free| && h.free[f] == freep && 1 <= i && Searched(h, f, i, n)
    && h.free[i] < |h.mem| && h.mem[h.free[i]].size >= n
  }

  /** `addr` is the user part of a new block of `n` units; no other allocated
      block was touched. */
  ghost predicate Allocated(h: Heap, r: Heap, addr: nat, n: nat) {
    && addr >= 1 && addr - 1 !in h.used && r.used == h.used + {addr - 1}
    && addr - 1 < |r.mem| == |h.mem| && r.mem[addr - 1].size == n
    && forall c :: c in h.used ==> c < |r.mem| && r.mem[c].size == h.mem[c].size
  }

  lemma FirstHeap(h: Heap)
    requires |h.mem| > BASE && h.mem[BASE] == Header(BASE, 0) && h.free == [BASE] && h.used == {} && h.own == map[]
    ensures Sound(h) && Coalesced(h)
  {
    assert Linked(h, 0);
  }

  /** The `int` that `sbrk(nu * sizeof(Header))` receives. */
  function SbrkArg(nu: nat): int {
    var w := nu * UNIT % WORD_LIMIT;
    if w < WORD_LIMIT / 2 then w else w - WORD_LIMIT
  }

  lemma LinkSizes(h: Heap, k: nat, b: nat)
    requires k < |h.free| && h.free[k] < |h.mem| && b < |h.mem|
    ensures |Link(h, k, b).mem| == |h.mem| && forall x :: 0 <= x < |h.mem| ==> Link(h, k, b).mem[x].size == h.mem[x].size
  {
  }

  /** Merging makes the block at position `i` as big as the two together. */
  lemma MergeSizes(h: Heap, i: nat)
    ensures var r := Merge(h, i);
            i + 1 < |h.free| && h.free[i] < |h.mem| && h.free[i + 1] < |h.mem| ==>
              && i < |r.free| && r.free[i] == h.free[i] && |r.mem| == |h.mem|
              && r.mem[h.free[i]].size == h.mem[h.free[i]].size + h.mem[h.free[i + 1]].size
              && (forall j :: 0 <= j < i ==> r.free[j] == h.free[j])
              && (forall x :: 0 <= x < |h.mem| && x != h.free[i] ==> r.mem[x] == h.mem[x])
  {
  }

  lemma FreedHoldsBlock(h: Heap, k: nat, b: nat)
    requires Sound(h) && b in h.used && Belongs(h, k, b)
    ensures var r := Freed(h, k, b); exists j :: 0 <= j < |r.free| && r.free[j] < |r.mem| && r.mem[r.free[j]].size >= h.mem[b].size
  {
    hide Link, Merge, Adjacent, Covers, Placed, Kept, Linked;
    var l, r := Link(h, k, b), Freed(h, k, b);
    Linking(h, k, b);
    LinkSizes(h, k, b);
    MergeSizes(l, k + 1);
    MergeSizes(l, k);
    MergeSizes(Merge(l, k + 1), k);
    var j := if TouchesPrevious(h, k, b) then k else k + 1;
    assert j < |r.free| && r.free[j] < |r.mem| && r.mem[r.free[j]].size >= h.mem[b].size;
  }
}
