/** What the operations of vm.c do to memory as a whole, and how their steps add up. */
module AddressSpace {
  import opened PageMap

  // -------------------------------------------------- what operations change

  /** The contents of user pages and of the kernel's own frames are untouched. */
  ghost predicate SameContents(r: Ram, r': Ram) {
    |r.own| <= |r.pages| <= |r'.pages| &&
    forall f :: 0 <= f < |r.own| && (r.own[f].User? || r.own[f].Kernel?) ==> r'.pages[f] == r.pages[f]
  }

  /** Frame `f`, at place `x`, is part of address space `d`. */
  predicate PartOf(x: Place, f: nat, d: nat) {
    (x == Dir && f == d) || (x.Tab? && x.d == d) || (x.User? && x.d == d)
  }

  /** Free frames became part of `d`; nothing else moved. */
  ghost predicate OwnAdded(r: Ram, r': Ram, d: nat) {
    r'.lo == r.lo && |r'.own| == |r.own| &&
    forall f :: 0 <= f < |r.own| ==> r'.own[f] == r.own[f] || (r.own[f] == Free && PartOf(r'.own[f], f, d))
  }

  /** Address space `d` gained frames; every other one is as it was. */
  ghost predicate Added(r: Ram, r': Ram, d: nat) {
    && OwnAdded(r, r', d) && SameContents(r, r')
    && forall e :: IsDir(r, e) && e != d ==> SameDir(r, r', e)
  }

  /** walkpgdir may add a table, which maps nothing yet. */
  ghost predicate Walked(r: Ram, r': Ram, d: nat, v: nat) {
    && Inv(r') && IsDir(r', d)
    && r'.lo == r.lo && |r'.own| == |r.own|
    && (forall f :: 0 <= f < |r.own| ==> r'.own[f] == r.own[f] || (r.own[f] == Free && r'.own[f] == Tab(d, v / NENTRIES)))
    && SameContents(r, r')
    && (forall e :: IsDir(r, e) && e != d ==> SameDir(r, r', e))
    && (forall u :: 0 <= u < ALLPAGES ==> Flat(r'.pages, d, u) == Flat(r.pages, d, u))
    && OneTable(r, r', d, v / NENTRIES)
  }

  /** Of the tables of `d` only table `i` may be new, and then it took one frame. */
  ghost predicate OneTable(r: Ram, r': Ram, d: nat, i: nat) {
    && (forall j :: 0 <= j < NENTRIES && j != i ==> EntryIn(r'.pages, d, j) == EntryIn(r.pages, d, j))
    && (EntryIn(r.pages, d, i).p ==> EntryIn(r'.pages, d, i).p)
    && |r'.free| + (if EntryIn(r'.pages, d, i).p && !EntryIn(r.pages, d, i).p then 1 else 0) == |r.free|
  }

  /** Frames that mapping page `v` takes for its table. */
  function Cost(r: Ram, d: nat, v: nat): nat {
    if EntryIn(r.pages, d, v / NENTRIES).p then 0 else 1
  }

  /** Frame at place `x` holds one of pages a..b of `d`. */
  predicate InRange(x: Place, d: nat, a: int, b: int) {
    x.User? && x.d == d && a <= x.v < b
  }

  /** Pages a..b of `d` were unmapped and their frames freed, and nothing else. */
  ghost predicate Released(r: Ram, r': Ram, d: nat, a: int, b: int) {
    && r'.lo == r.lo && |r'.own| == |r.own| == |r.pages| == |r'.pages|
    && (forall f :: 0 <= f < |r.own| ==> r'.own[f] == if InRange(r.own[f], d, a, b) then Free else r.own[f])
    && (forall f :: 0 <= f < |r.own| && (r.own[f].Kernel? || r.own[f].User?) && !InRange(r.own[f], d, a, b) ==> r'.pages[f] == r.pages[f])
    && (forall e, i :: IsDir(r, e) && 0 <= i < NENTRIES ==> EntryIn(r'.pages, e, i) == EntryIn(r.pages, e, i))
    && (forall e, u :: IsDir(r, e) && 0 <= u < ALLPAGES ==> ReleasedAt(r, r', d, a, b, e, u))
  }

  ghost predicate ReleasedAt(r: Ram, r': Ram, d: nat, a: int, b: int, e: nat, u: nat) {
    var x := Flat(r.pages, e, u);
    Flat(r'.pages, e, u) == if e == d && a <= u < b && Mapped(x) then NOPTE else x
  }

  lemma ReleasedOne(r0: Ram, r: Ram, d: nat, a: nat, v: nat)
    requires Inv(r0) && Inv(r) && IsDir(r0, d) && Released(r0, r, d, a, v) && a <= v < USERPAGES && Mapped(Flat(r.pages, d, v))
    ensures Leafy(r, d, v) && LeafOk(r, d, v) && Released(r0, FreeUser(r, d, v), d, a, v + 1)
  {
    FreeUserKeepsInv(r, d, v);
    var f, r', w := Flat(r.pages, d, v).ppn, FreeUser(r, d, v), v + 1;
    assert ReleasedAt(r0, r, d, a, v, d, v);
    assert LeafOk(r0, d, v);
    HasTable(r, d, v);
    forall g | 0 <= g < |r0.own|
      ensures InRange(r0.own[g], d, a, v + 1) <==> InRange(r0.own[g], d, a, v) || g == f
    {
      assert FrameOk(r0, g);
    }
    hide Inv, Flat, EntryIn;
    forall e, u | IsDir(r0, e) && 0 <= u < ALLPAGES
      ensures ReleasedAt(r0, r', d, a, w, e, u)
    {
      assert ReleasedAt(r0, r, d, a, v, e, u);
      assert IsDir(r, e);
    }
    assert forall e :: IsDir(r0, e) ==> IsDir(r, e);
  }

  /** Where nothing is mapped there is nothing to release. */
  lemma ReleasedNone(r0: Ram, r: Ram, d: nat, a: nat, v: nat, w: nat)
    requires Inv(r0) && IsDir(r0, d) && Released(r0, r, d, a, v) && a <= v <= w <= USERPAGES
    requires forall u :: v <= u < w ==> !Mapped(Flat(r.pages, d, u))
    ensures Released(r0, r, d, a, w)
  {
    forall u | v <= u < w
      ensures !Mapped(Flat(r0.pages, d, u))
    {
      assert ReleasedAt(r0, r, d, a, v, d, u);
    }
    forall g | 0 <= g < |r0.own|
      ensures InRange(r0.own[g], d, a, w) <==> InRange(r0.own[g], d, a, v)
    {
      assert FrameOk(r0, g);
    }
    hide Inv, Flat, EntryIn;
    forall e, u | IsDir(r0, e) && 0 <= u < ALLPAGES
      ensures ReleasedAt(r0, r, d, a, w, e, u)
    {
      assert ReleasedAt(r0, r, d, a, v, e, u);
    }
  }

  lemma ReleasedNothing(r: Ram, d: nat, a: nat)
    requires Inv(r)
    ensures Released(r, r, d, a, a)
  {
    forall e, u | IsDir(r, e) && 0 <= u < ALLPAGES
      ensures ReleasedAt(r, r, d, a, a, e, u)
    {
    }
  }

  lemma WalkedNew(r: Ram, d: nat, v: nat)
    requires Inv(r) && IsDir(r, d) && v < ALLPAGES && r.free != [] && !EntryIn(r.pages, d, v / NENTRIES).p
    ensures r.free[0] < |r.own| && FrameOk(Take(r), d) && r.free[0] != d
    ensures var r' := NewTable(Take(r), d, v / NENTRIES, r.free[0]);
            Walked(r, r', d, v) && Leafy(r', d, v) && EntryIn(r'.pages, d, v / NENTRIES) == Pte(r.free[0], true, true, true, false, false)
  {
    TakeKeepsInv(r);
    var m, t, i := Take(r), r.free[0], v / NENTRIES;
    assert SameDir(r, m, d);
    assert IsDir(m, d);
    NewTableKeepsInv(m, d, i, t);
    NewTableMaps(m, d, i, t);
    var r' := NewTable(m, d, i, t);
    HasTable(r', d, v);
    hide Inv, Flat, EntryIn;
    forall e | IsDir(r, e) && e != d
      ensures SameDir(r, r', e)
    {
      assert SameDir(r, m, e) && IsDir(m, e);
    }
    assert forall u :: 0 <= u < ALLPAGES ==> Flat(m.pages, d, u) == Flat(r.pages, d, u);
    assert SameDir(r, m, d);
  }

  lemma NoTable(r: Ram, d: nat, v: nat, w: nat)
    requires !EntryIn(r.pages, d, v / NENTRIES).p && w <= (v / NENTRIES + 1) * NENTRIES
    ensures forall u :: v <= u < w ==> !Mapped(Flat(r.pages, d, u))
  {
  }

  lemma EntryOf(r: Ram, d: nat, v: nat)
    requires Leafy(r, d, v)
    ensures Flat(r.pages, d, v) == r.pages[EntryIn(r.pages, d, v / NENTRIES).ppn].ptes[v % NENTRIES]
  {
  }

  /** Freeing the frame and then clearing the entry is FreeUser. */
  lemma FreesInOrder(r: Ram, d: nat, v: nat, t: nat)
    requires Inv(r) && IsDir(r, d) && v < USERPAGES && Leafy(r, d, v) && Mapped(Flat(r.pages, d, v))
    requires t == EntryIn(r.pages, d, v / NENTRIES).ppn
    ensures LeafOk(r, d, v) && Flat(r.pages, d, v).ppn != t
    ensures var f := Flat(r.pages, d, v).ppn;
            && f < |r.own| == |r.pages| && t < |r.pages| && r.pages[f := Junk()][t] == r.pages[t]
            && FreeUser(r, d, v) == Ram(r.lo, [f] + r.free, SetEntry(r.pages[f := Junk()], t, v % NENTRIES, NOPTE), r.own[f := Free])
  {
    assert LeafOk(r, d, v);
    HasTable(r, d, v);
  }

  lemma StillDir(r0: Ram, r: Ram, d: nat, a: int, b: int)
    requires IsDir(r0, d) && Released(r0, r, d, a, b)
    ensures IsDir(r, d)
  {
  }

  /** The pages that hold the first `sz` bytes. */
  function PagesUp(sz: nat): nat {
    (sz + PGSIZE - 1) / PGSIZE
  }

  // ------------------------------------------------- taking a space apart

  /** freevm, once the user pages are gone: the directory and its tables are no
      longer in use, and the first `i` tables are free. */
  function Dismantled(own: seq<Place>, d: nat, i: nat): seq<Place> {
    seq(|own|, f requires 0 <= f < |own| =>
      if f == d then Kernel
      else if own[f].Tab? && own[f].d == d then (if own[f].i < i then Free else Kernel)
      else own[f])
  }

  lemma DismantleKeepsInv(r: Ram, d: nat)
    requires Inv(r) && IsDir(r, d) && forall f :: 0 <= f < |r.own| ==> !InRange(r.own[f], d, 0, USERPAGES)
    ensures Inv(r.(own := Dismantled(r.own, d, 0)))
  {
    var r' := r.(own := Dismantled(r.own, d, 0));
    hide Flat, EntryIn;
    forall f: nat
      ensures f in r'.free <==> f < |r'.own| && r'.own[f] == Free
    {
      assert f in r.free <==> f < |r.own| && r.own[f] == Free;
    }
    forall g | 0 <= g < |r'.own|
      ensures FrameOk(r', g)
    {
      assert FrameOk(r, g);
    }
    forall e, j
      ensures DirOk(r', e, j)
    {
      assert DirOk(r, e, j);
    }
    forall e, u
      ensures LeafOk(r', e, u)
    {
      assert LeafOk(r, e, u);
    }
  }

  /** Table `i` of `d` is the frame its entry names, if there is one. */
  lemma TableAt(r: Ram, d: nat, i: nat)
    requires Inv(r) && IsDir(r, d) && i < NENTRIES
    ensures var pde := EntryIn(r.pages, d, i);
            && FrameOk(r, d) && pde == r.pages[d].ptes[i] && !pde.e
            && (pde.p ==> r.lo <= pde.ppn < |r.own| && pde.ppn != d)
            && forall f :: 0 <= f < |r.own| ==> (r.own[f] == Tab(d, i) <==> pde.p && f == pde.ppn)
  {
    assert FrameOk(r, d) && DirOk(r, d, i);
    assert EntryIn(r.pages, d, i).p ==> FrameOk(r, EntryIn(r.pages, d, i).ppn);
    forall f | 0 <= f < |r.own|
      ensures r.own[f] == Tab(d, i) <==> EntryIn(r.pages, d, i).p && f == EntryIn(r.pages, d, i).ppn
    {
      assert FrameOk(r, f);
    }
  }

  /** Everything that was part of `d` is free; nothing else moved. */
  ghost predicate OwnFreed(r: Ram, r': Ram, d: nat) {
    r'.lo == r.lo && |r'.own| == |r.own| &&
    forall f :: 0 <= f < |r.own| ==> r'.own[f] == if PartOf(r.own[f], f, d) then Free else r.own[f]
  }

  /** Address space `d` is gone; every other one is as it was. */
  ghost predicate Freed(r: Ram, r': Ram, d: nat) {
    && OwnFreed(r, r', d)
    && |r.own| == |r.pages| == |r'.pages|
    && (forall f :: 0 <= f < |r.own| && (r.own[f].User? || r.own[f].Kernel?) && !PartOf(r.own[f], f, d) ==> r'.pages[f] == r.pages[f])
    && forall e :: IsDir(r, e) && e != d ==> SameDir(r, r', e)
  }

  lemma FreedAll(r0: Ram, r1: Ram, r2: Ram, d: nat)
    requires Inv(r0) && IsDir(r0, d) && Inv(r1) && Released(r0, r1, d, 0, USERPAGES)
    requires r2.lo == r1.lo && r2.own == Dismantled(r1.own, d, NENTRIES) && |r2.pages| == |r1.pages|
    requires forall f :: 0 <= f < |r1.own| && !(r1.own[f].Tab? && r1.own[f].d == d) ==> r2.pages[f] == r1.pages[f]
    ensures Freed(r0, Give(r2, d), d)
  {
    var r3 := Give(r2, d);
    forall f | 0 <= f < |r0.own|
      ensures r3.own[f] == if PartOf(r0.own[f], f, d) then Free else r0.own[f]
    {
      assert FrameOk(r0, f);
    }
    forall e | IsDir(r0, e) && e != d
      ensures SameDir(r0, r3, e)
    {
      assert IsDir(r1, e);
      forall v | 0 <= v < ALLPAGES
        ensures Flat(r3.pages, e, v) == Flat(r0.pages, e, v)
      {
        assert ReleasedAt(r0, r1, d, 0, USERPAGES, e, v);
        assert DirOk(r1, e, v / NENTRIES);
      }
    }
  }

  // ------------------------------------------------------- mapping pages

  /** The entry mappages writes. */
  function Installed(ppn: nat, perm: Pte): Pte {
    if perm.e then perm.(ppn := ppn) else perm.(ppn := ppn, p := true)
  }

  /** Page `v` of `d` is now mapped by `x`, perhaps with a new table; a user page
      takes its frame over from the kernel. */
  ghost predicate MappedOne(r: Ram, r': Ram, d: nat, v: nat, x: Pte) {
    && Inv(r') && IsDir(r', d) && r'.lo == r.lo && |r'.own| == |r.own|
    && (forall f :: 0 <= f < |r.own| ==> MappedPlace(r, r', d, v, x, f))
    && SameContents(r, r')
    && (forall e :: IsDir(r, e) && e != d ==> SameDir(r, r', e))
    && (forall u :: 0 <= u < ALLPAGES ==> Flat(r'.pages, d, u) == if u == v then x else Flat(r.pages, d, u))
    && OneTable(r, r', d, v / NENTRIES) && EntryIn(r'.pages, d, v / NENTRIES).p
  }

  ghost predicate MappedPlace(r: Ram, r': Ram, d: nat, v: nat, x: Pte, f: nat) {
    f < |r.own| == |r'.own| &&
    if v < USERPAGES && f == x.ppn then r'.own[f] == User(d, v)
    else r'.own[f] == r.own[f] || (r.own[f] == Free && r'.own[f] == Tab(d, v / NENTRIES))
  }

  /** What mappages asks of its caller for a user page: a frame of the kernel's. */
  predicate Mappable(r: Ram, v: nat, x: Pte) {
    v < USERPAGES ==>
      && r.lo <= x.ppn < |r.own| == |r.pages| && r.own[x.ppn] == Kernel
      && r.pages[x.ppn].Bytes? && |r.pages[x.ppn].data| == PGSIZE && x.p != x.e
  }

  /** The frames after setting the entry of page `v`. */
  ghost function Placed(r: Ram, d: nat, v: nat, x: Pte): seq<Place> {
    if v < USERPAGES && x.ppn < |r.own| then r.own[x.ppn := User(d, v)] else r.own
  }

  lemma MapsOne(r: Ram, m: Ram, d: nat, v: nat, x: Pte)
    requires Inv(r) && IsDir(r, d) && v < ALLPAGES && !Mapped(Flat(r.pages, d, v)) && Mappable(r, v, x)
    requires Walked(r, m, d, v) && EntryIn(m.pages, d, v / NENTRIES).p
    ensures Leafy(m, d, v) && MappedOne(r, m.(pages := SetLeaf(m, d, v, x), own := Placed(m, d, v, x)), d, v, x)
  {
    SetLeafMaps(m, d, v, x);
    HasTable(m, d, v);
    var r' := m.(pages := SetLeaf(m, d, v, x), own := Placed(m, d, v, x));
    if v < USERPAGES {
      assert m.pages[x.ppn] == r.pages[x.ppn];
      MapUserKeepsInv(m, d, v, x);
      assert r' == MapUser(m, d, v, x);
    } else {
      MapKernelKeepsInv(m, d, v, x);
    }
    hide Inv, Flat, EntryIn;
    forall e | IsDir(r, e) && e != d
      ensures SameDir(r, r', e)
    {
      assert SameDir(r, m, e) && IsDir(m, e);
    }
  }

  lemma MapsOneInv(r: Ram, r': Ram, d: nat, v: nat, x: Pte)
    requires MappedOne(r, r', d, v, x)
    ensures Inv(r')
  {
  }

  /** Pages first..v of `d` are mapped to consecutive frames from `ppn`. */
  ghost predicate FlatRun(r: Ram, r': Ram, d: nat, first: nat, v: nat, ppn: nat, perm: Pte) {
    forall u :: 0 <= u < ALLPAGES ==>
      Flat(r'.pages, d, u) == if first <= u < v then Installed(ppn + u - first, perm) else Flat(r.pages, d, u)
  }

  lemma AddedMore(r0: Ram, r: Ram, r': Ram, d: nat)
    requires Added(r0, r, d) && Added(r, r', d)
    ensures Added(r0, r', d)
  {
    forall e | IsDir(r0, e) && e != d
      ensures SameDir(r0, r', e)
    {
      assert SameDir(r0, r, e) && IsDir(r, e);
    }
  }

  lemma KernelPageAdded(r: Ram, r': Ram, d: nat, v: nat, x: Pte)
    requires MappedOne(r, r', d, v, x) && USERPAGES <= v
    ensures Added(r, r', d) && Inv(r') && IsDir(r', d)
  {
    hide Inv, SameDir, SameContents, Flat;
    forall f | 0 <= f < |r.own|
      ensures r'.own[f] == r.own[f] || (r.own[f] == Free && PartOf(r'.own[f], f, d))
    {
      assert MappedPlace(r, r', d, v, x, f);
    }
  }

  lemma FlatRunOne(r0: Ram, r: Ram, r': Ram, d: nat, first: nat, v: nat, ppn: nat, perm: Pte)
    requires FlatRun(r0, r, d, first, v, ppn, perm) && first <= v && MappedOne(r, r', d, v, Installed(ppn + v - first, perm))
    ensures FlatRun(r0, r', d, first, v + 1, ppn, perm)
  {
    hide Inv, Flat, SameContents;
  }

  // --------------------------------------------------- counting the frames

  /** The tables that pages a..v of `d` still need. */
  ghost function Missing(r: Ram, d: nat, a: nat, v: nat): nat {
    if v <= a then 0
    else
      Missing(r, d, a, v - 1) +
      if (v - 1 == a || (v - 1) % NENTRIES == 0) && !EntryIn(r.pages, d, (v - 1) / NENTRIES).p then 1 else 0
  }

  lemma {:induction false} MissingGrows(r: Ram, d: nat, a: nat, v: nat, w: nat)
    requires v <= w
    ensures Missing(r, d, a, v) <= Missing(r, d, a, w)
    decreases w
  {
    if v < w {
      MissingGrows(r, d, a, v, w - 1);
    }
  }

  /** Since `r0` the tables of pages a..v have been added to `d`, and no other. */
  ghost predicate TablesTo(r0: Ram, r: Ram, d: nat, a: nat, v: nat) {
    forall i :: 0 <= i < NENTRIES ==>
      (EntryIn(r.pages, d, i).p <==> EntryIn(r0.pages, d, i).p || (a < v && a / NENTRIES <= i <= (v - 1) / NENTRIES))
  }

  /** Since `r0` those tables and `frames` other frames have left the free list. */
  ghost predicate Paid(r0: Ram, r: Ram, d: nat, a: nat, v: nat, frames: nat) {
    TablesTo(r0, r, d, a, v) && |r.free| + frames + Missing(r0, d, a, v) == |r0.free|
  }

  lemma PaidNothing(r: Ram, d: nat, a: nat)
    ensures Paid(r, r, d, a, a, 0)
  {
  }

  /** Page `v` costs a table exactly when it is the first of its table. */
  lemma CostIs(r0: Ram, r: Ram, d: nat, a: nat, v: nat, frames: nat)
    requires Paid(r0, r, d, a, v, frames) && a <= v < ALLPAGES
    ensures Missing(r0, d, a, v + 1) == Missing(r0, d, a, v) + Cost(r, d, v)
  {
    hide EntryIn;
    assert v / NENTRIES < NENTRIES;
  }

  /** Taking `taken` frames and mapping page `v`. */
  lemma PaidMore(r0: Ram, r: Ram, m: Ram, r': Ram, d: nat, a: nat, v: nat, x: Pte, frames: nat, taken: nat)
    requires Paid(r0, r, d, a, v, frames) && a <= v < ALLPAGES
    requires |m.free| + taken == |r.free| && forall i :: 0 <= i < NENTRIES ==> EntryIn(m.pages, d, i) == EntryIn(r.pages, d, i)
    requires MappedOne(m, r', d, v, x)
    ensures Paid(r0, r', d, a, v + 1, frames + taken)
  {
    CostIs(r0, r, d, a, v, frames);
    hide EntryIn, Inv, Missing, Flat, SameContents, SameDir;
    assert v / NENTRIES < NENTRIES;
    forall i | 0 <= i < NENTRIES
      ensures EntryIn(r'.pages, d, i).p <==> EntryIn(r0.pages, d, i).p || (a < v + 1 && a / NENTRIES <= i <= v / NENTRIES)
    {
      assert EntryIn(r.pages, d, i).p <==> EntryIn(r0.pages, d, i).p || (a < v && a / NENTRIES <= i <= (v - 1) / NENTRIES);
    }
  }

  // ------------------------------------------------- the kernel's mappings

  /** A row of kmap, in pages. */
  datatype Kmap = Kmap(virt: nat, count: nat, phys: nat, w: bool)

  /** kmap; `data` is the first page of the kernel's data. */
  function KernelMap(data: nat): seq<Kmap>
    requires 0x80100 < data < 0x8E000
  {
    [Kmap(0x80000, 0x100, 0, true),
     Kmap(0x80100, data - 0x80100, 0x100, false),
     Kmap(data, 0x8E000 - data, data - 0x80000, true),
     Kmap(0xFE000, 0x2000, 0xFE000, true)]
  }

  /** What the kernel's half of every address space should be: physical memory from
      KERNBASE on, read-only where the kernel's text is, and the devices at the top. */
  function KernelPte(data: nat, v: nat): Pte {
    if 0x80000 <= v < 0x8E000 then Pte(v - 0x80000, true, v < 0x80100 || v >= data, false, false, false)
    else if 0xFE000 <= v then Pte(v, true, true, false, false, false)
    else NOPTE
  }

  function KernelPerm(w: bool): Pte {
    Pte(0, false, w, false, false, false)
  }

  /** The kernel's half is done up to page `v`, and nothing is mapped from there. */
  ghost predicate KernelUpTo(r: Ram, d: nat, data: nat, v: nat) {
    forall u :: 0 <= u < ALLPAGES ==> Flat(r.pages, d, u) == if u < v then KernelPte(data, u) else NOPTE
  }

  /** The tables that hold the kernel's half. */
  predicate KernelTable(i: nat) {
    512 <= i < 568 || 1016 <= i < NENTRIES
  }

  /** How many of them begin below page `v`. */
  function KernelTables(v: nat): nat {
    if v <= 0x80000 then 0
    else if v <= 0x8E000 then (v - 0x80000 + NENTRIES - 1) / NENTRIES
    else if v <= 0xFE000 then 56
    else if v <= ALLPAGES then 56 + (v - 0xFE000 + NENTRIES - 1) / NENTRIES
    else 64
  }

  /** The tables of `d` are the kernel's that begin below page `v`. */
  ghost predicate TablesBelow(r: Ram, d: nat, v: nat) {
    forall i :: 0 <= i < NENTRIES ==> (EntryIn(r.pages, d, i).p <==> KernelTable(i) && i * NENTRIES < v)
  }

  lemma {:induction false} KernelMissing(r: Ram, d: nat, a: nat, b: nat)
    requires TablesBelow(r, d, a) && a <= b && ((0x80000 <= a && b <= 0x8E000) || (0xFE000 <= a && b <= ALLPAGES))
    ensures Missing(r, d, a, b) == KernelTables(b) - KernelTables(a)
    decreases b
  {
    hide EntryIn, KernelTables;
    if a < b {
      KernelMissing(r, d, a, b - 1);
      var i := (b - 1) / NENTRIES;
      NextKernelTable(b - 1);
      assert EntryIn(r.pages, d, i).p <==> i * NENTRIES < a;
      assert i * NENTRIES < a <==> (b - 1) % NENTRIES != 0 && i * NENTRIES < a;
    }
  }

  lemma NextKernelTable(v: nat)
    requires 0x80000 <= v < 0x8E000 || 0xFE000 <= v < ALLPAGES
    ensures v / NENTRIES < NENTRIES && KernelTable(v / NENTRIES)
    ensures KernelTables(v + 1) == KernelTables(v) + if v % NENTRIES == 0 then 1 else 0
  {
  }

  /** A row of kmap: what it costs and which tables there are after it. */
  lemma KernelPaid(r: Ram, r': Ram, d: nat, data: nat, k: nat, end: nat)
    requires 0x80100 < data < 0x8E000 && k < 4 && TablesBelow(r, d, KernelMap(data)[k].virt)
    requires end == KernelMap(data)[k].virt + KernelMap(data)[k].count
    ensures Missing(r, d, KernelMap(data)[k].virt, end) == KernelTables(end) - KernelTables(KernelMap(data)[k].virt)
    ensures KernelTables(end) <= 64
    ensures TablesTo(r, r', d, KernelMap(data)[k].virt, end) ==>
              TablesBelow(r', d, if k == 2 then 0xFE000 else end) && KernelTables(if k == 2 then 0xFE000 else end) == KernelTables(end)
  {
    var a := KernelMap(data)[k].virt;
    KernelMissing(r, d, a, end);
    hide EntryIn;
    if TablesTo(r, r', d, a, end) {
      forall i | 0 <= i < NENTRIES
        ensures EntryIn(r'.pages, d, i).p <==> KernelTable(i) && i * NENTRIES < if k == 2 then 0xFE000 else end
      {
        assert EntryIn(r.pages, d, i).p <==> KernelTable(i) && i * NENTRIES < a;
      }
    }
  }

  /** An address space without user tables needs one for every 1024 pages. */
  lemma {:induction false} UserMissing(r: Ram, d: nat, n: nat)
    requires TablesBelow(r, d, ALLPAGES) && n <= USERPAGES
    ensures Missing(r, d, 0, n) == (n + NENTRIES - 1) / NENTRIES
    decreases n
  {
    if n > 0 {
      UserMissing(r, d, n - 1);
      hide EntryIn;
      var i := (n - 1) / NENTRIES;
      assert i < NENTRIES && !KernelTable(i);
    }
  }

  lemma KernelRow(r: Ram, r': Ram, d: nat, data: nat, k: nat, end: nat)
    requires 0x80100 < data < 0x8E000 && k < 4
    requires var row := KernelMap(data)[k];
             && end == row.virt + row.count && KernelUpTo(r, d, data, row.virt)
             && FlatRun(r, r', d, row.virt, end, row.phys, KernelPerm(row.w))
    ensures KernelUpTo(r', d, data, if k == 2 then 0xFE000 else end)
  {
    hide Flat;
    var row := KernelMap(data)[k];
    forall u | 0 <= u < ALLPAGES
      ensures Flat(r'.pages, d, u) == if u < (if k == 2 then 0xFE000 else end) then KernelPte(data, u) else NOPTE
    {
      assert Flat(r'.pages, d, u) == if row.virt <= u < end then Installed(row.phys + u - row.virt, KernelPerm(row.w)) else Flat(r.pages, d, u);
    }
  }

  lemma KernelFree(r: Ram, d: nat, data: nat, v: nat)
    requires KernelUpTo(r, d, data, v)
    ensures forall u :: v <= u < ALLPAGES ==> !Mapped(Flat(r.pages, d, u))
  {
    hide Flat;
  }

  /** Where row `k` of kmap starts. */
  function KernelStart(data: nat, k: nat): nat {
    if k == 0 then 0x80000 else if k == 1 then 0x80100 else if k == 2 then data else if k == 3 then 0xFE000 else ALLPAGES
  }

  lemma KernelNothing(r: Ram, d: nat, data: nat)
    requires forall v :: 0 <= v < ALLPAGES ==> Flat(r.pages, d, v) == NOPTE
    requires forall i :: 0 <= i < NENTRIES ==> EntryIn(r.pages, d, i) == NOPTE
    ensures KernelUpTo(r, d, data, 0x80000) && TablesBelow(r, d, 0x80000) && KernelTables(0x80000) == 0
  {
    hide Flat, EntryIn;
  }

  /** setupkvm has made directory `d` and mapped the first `k` rows in it. */
  ghost predicate InRow(r0: Ram, r: Ram, d: nat, data: nat, k: nat) {
    && Inv(r) && IsDir(r, d) && !IsDir(r0, d) && Added(r0, r, d)
    && KernelUpTo(r, d, data, KernelStart(data, k)) && TablesBelow(r, d, KernelStart(data, k))
    && |r.free| + 1 + KernelTables(KernelStart(data, k)) == |r0.free|
  }

  lemma KernelTotal()
    ensures KernelTables(ALLPAGES) == 64
  {
  }

  lemma PaidFree(r0: Ram, r: Ram, d: nat, a: nat, v: nat, frames: nat)
    requires Paid(r0, r, d, a, v, frames)
    ensures |r.free| + frames + Missing(r0, d, a, v) == |r0.free|
    ensures a < v && v <= ALLPAGES ==> TablesTo(r0, r, d, a, v)
  {
  }

  lemma WalkedSame(r: Ram, r': Ram, d: nat, v: nat)
    requires Walked(r, r', d, v) && v < ALLPAGES
    ensures Flat(r'.pages, d, v) == Flat(r.pages, d, v)
  {
  }

  /** A mapped page has a table. */
  lemma WalkedMapped(r: Ram, d: nat, v: nat)
    requires Mapped(Flat(r.pages, d, v))
    ensures EntryIn(r.pages, d, v / NENTRIES).p && Cost(r, d, v) == 0
  {
  }

  lemma AddedNothing(r: Ram, d: nat)
    requires Inv(r)
    ensures Added(r, r, d)
  {
  }

  /** A free frame becomes an empty directory. */
  lemma NewSpace(r: Ram, d: nat)
    requires Inv(r) && r.free != [] && d == r.free[0]
    ensures d < |r.own| == |r.pages| && r.own[d] == Free && !IsDir(r, d)
    ensures var r' := NewDir(Take(r), d);
            && Inv(r') && IsDir(r', d) && Added(r, r', d) && |r'.free| + 1 == |r.free|
            && (forall v :: 0 <= v < ALLPAGES ==> Flat(r'.pages, d, v) == NOPTE)
            && forall i :: 0 <= i < NENTRIES ==> EntryIn(r'.pages, d, i) == NOPTE
  {
    TakeKeepsInv(r);
    var m := Take(r);
    NewDirKeepsInv(m, d);
    var r' := NewDir(m, d);
    hide Inv, Flat;
    forall e | IsDir(r, e) && e != d
      ensures SameDir(r, r', e)
    {
      assert SameDir(r, m, e) && IsDir(m, e);
      assert SameDir(m, r', e);
    }
  }

  /** Every frame is where it was, and every address space is as it was. */
  ghost predicate Restored(r: Ram, r': Ram) {
    r'.lo == r.lo && r'.own == r.own && SameContents(r, r') && SameDirs(r, r')
  }

  lemma RestoredSame(r: Ram)
    requires Inv(r)
    ensures Restored(r, r)
  {
  }

  /** Freeing a new address space undoes everything that went into it. */
  lemma Undone(r0: Ram, r: Ram, r': Ram, d: nat)
    requires Inv(r0) && !IsDir(r0, d) && Added(r0, r, d) && Freed(r, r', d)
    ensures Restored(r0, r')
  {
    forall f | 0 <= f < |r0.own|
      ensures r'.own[f] == r0.own[f]
    {
      assert FrameOk(r0, f);
    }
    hide Inv;
    forall e | IsDir(r0, e)
      ensures SameDir(r0, r', e)
    {
      assert SameDir(r0, r, e) && IsDir(r, e);
      assert SameDir(r, r', e);
    }
    forall f | 0 <= f < |r0.own| && (r0.own[f].User? || r0.own[f].Kernel?)
      ensures r'.pages[f] == r0.pages[f]
    {
      assert r.own[f] == r0.own[f];
    }
  }

  // ------------------------------------------------------ adding user pages

  /** A frame taken from the free list and filled. */
  function Filled(r: Ram, page: Page): Ram
    requires r.free != [] && r.free[0] < |r.own| == |r.pages|
  {
    Take(r).(pages := r.pages[r.free[0] := page])
  }

  lemma FilledKeepsInv(r: Ram, page: Page)
    requires Inv(r) && r.free != []
    ensures r.lo <= r.free[0] < |r.own| && r.own[r.free[0]] == Free && Inv(Filled(r, page)) && SameDirs(r, Filled(r, page))
  {
    TakeKeepsInv(r);
    var m, f := Take(r), r.free[0];
    Moved(m, Filled(r, page), f);
    forall d | IsDir(r, d)
      ensures SameDir(r, Filled(r, page), d)
    {
      assert IsDir(m, d) && SameDir(r, m, d);
    }
  }

  lemma FilledTables(r: Ram, d: nat, v: nat, page: Page)
    requires Inv(r) && IsDir(r, d) && v < ALLPAGES && r.free != [] && r.free[0] < |r.own| == |r.pages|
    ensures var m := Filled(r, page);
            |m.free| + 1 == |r.free| && Cost(m, d, v) == Cost(r, d, v) &&
            forall i :: 0 <= i < NENTRIES ==> EntryIn(m.pages, d, i) == EntryIn(r.pages, d, i)
  {
    FilledKeepsInv(r, page);
    hide Inv, EntryIn, Flat;
    assert SameDir(r, Filled(r, page), d);
    assert v / NENTRIES < NENTRIES;
  }

  /** Page `v` of `d` has the flags of `perm` and the contents `page`. */
  ghost predicate Has(r: Ram, d: nat, v: nat, perm: Pte, page: Page) {
    var x := Flat(r.pages, d, v);
    x == Installed(x.ppn, perm) && x.ppn < |r.pages| && r.pages[x.ppn] == page
  }

  /** Pages a..v of `d` were added as asked, and it maps nothing else differently. */
  ghost predicate Grown(r0: Ram, r: Ram, d: nat, a: nat, v: nat, perms: seq<Pte>, data: seq<Page>) {
    && Inv(r) && IsDir(r, d) && Added(r0, r, d)
    && v <= |perms| && v <= |data| && (forall u :: a <= u < v ==> Has(r, d, u, perms[u], data[u]))
    && (forall u :: 0 <= u < ALLPAGES && !(a <= u < v) ==> Flat(r.pages, d, u) == Flat(r0.pages, d, u))
  }

  /** Taking a frame, filling it and mapping it adds that page. */
  lemma PageAdded(r: Ram, m: Ram, r': Ram, d: nat, v: nat, x: Pte, page: Page)
    requires Inv(r) && IsDir(r, d) && v < USERPAGES && r.free != [] && r.free[0] < |r.own| && m == Filled(r, page) && x.ppn == r.free[0]
    requires MappedOne(m, r', d, v, x)
    ensures Added(r, r', d) && Inv(r') && IsDir(r', d)
    ensures forall u :: 0 <= u < ALLPAGES ==> Flat(r'.pages, d, u) == if u == v then x else Flat(r.pages, d, u)
    ensures x.ppn < |r'.pages| && r'.pages[x.ppn] == page
  {
    FilledKeepsInv(r, page);
    var f := r.free[0];
    hide Inv, Flat, EntryIn;
    forall g | 0 <= g < |r.own|
      ensures r'.own[g] == r.own[g] || (r.own[g] == Free && PartOf(r'.own[g], g, d))
    {
      assert MappedPlace(m, r', d, v, x, g);
    }
    forall e | IsDir(r, e) && e != d
      ensures SameDir(r, r', e)
    {
      assert SameDir(r, m, e) && IsDir(m, e);
    }
    assert SameDir(r, m, d);
  }

  lemma GrownMore(r0: Ram, r: Ram, m: Ram, r': Ram, d: nat, a: nat, v: nat, perms: seq<Pte>, data: seq<Page>)
    requires Inv(r0) && Grown(r0, r, d, a, v, perms, data) && a <= v < USERPAGES && v < |perms| && v < |data|
    requires r.free != [] && r.free[0] < |r.own| == |r.pages| && m == Filled(r, data[v])
    requires MappedOne(m, r', d, v, Installed(r.free[0], perms[v]))
    ensures Grown(r0, r', d, a, v + 1, perms, data)
  {
    PageAdded(r, m, r', d, v, Installed(r.free[0], perms[v]), data[v]);
    AddedMore(r0, r, r', d);
    forall u | a <= u < v
      ensures Has(r', d, u, perms[u], data[u])
    {
      assert Has(r, d, u, perms[u], data[u]) && LeafOk(r, d, u);
      assert Flat(r'.pages, d, u) == Flat(r.pages, d, u);
      assert Mapped(Flat(r.pages, d, u));
    }
  }

  /** Only tables, which map nothing, were added to `d`. */
  ghost predicate GaveUp(r0: Ram, r: Ram, d: nat) {
    && Added(r0, r, d) && IsDir(r, d)
    && (forall f :: 0 <= f < |r0.own| ==> r.own[f] == r0.own[f] || (r0.own[f] == Free && r.own[f].Tab? && r.own[f].d == d))
    && (forall u :: 0 <= u < ALLPAGES ==> Flat(r.pages, d, u) == Flat(r0.pages, d, u))
  }

  /** Releasing pages while the kernel holds one frame, and then freeing that. */
  lemma ReleasedLent(r: Ram, m: Ram, m': Ram, page: Page, d: nat, a: int, b: int)
    requires Inv(r) && IsDir(r, d) && r.free != [] && r.free[0] < |r.own| && m == Filled(r, page) && Inv(m') && Released(m, m', d, a, b)
    ensures m'.lo == r.lo <= r.free[0] < |m'.own| && m'.own[r.free[0]] == Kernel && Inv(Give(m', r.free[0])) && Released(r, Give(m', r.free[0]), d, a, b)
  {
    FilledKeepsInv(r, page);
    var f := r.free[0];
    GiveKeepsInv(m', f);
    var r' := Give(m', f);
    hide Inv, Flat, EntryIn;
    forall e, u | IsDir(r, e) && 0 <= u < ALLPAGES
      ensures ReleasedAt(r, r', d, a, b, e, u)
    {
      assert IsDir(m, e) && IsDir(m', e);
      assert SameDir(r, m, e) && SameDir(m', r', e) && ReleasedAt(m, m', d, a, b, e, u);
    }
    forall e, i | IsDir(r, e) && 0 <= i < NENTRIES
      ensures EntryIn(r'.pages, e, i) == EntryIn(r.pages, e, i)
    {
      assert IsDir(m, e) && IsDir(m', e);
      assert SameDir(r, m, e) && SameDir(m', r', e);
    }
  }

  /** Undoing an allocation takes away exactly the pages it added. */
  lemma Ungrown(r0: Ram, r: Ram, r': Ram, d: nat, a: nat, v: nat, b: nat, perms: seq<Pte>, data: seq<Page>)
    requires Inv(r0) && IsDir(r0, d) && Grown(r0, r, d, a, v, perms, data) && a <= v <= b <= USERPAGES
    requires forall u :: a <= u < b ==> Flat(r0.pages, d, u) == NOPTE
    requires Released(r, r', d, a, b)
    ensures GaveUp(r0, r', d)
  {
    forall f | 0 <= f < |r0.own|
      ensures r'.own[f] == r0.own[f] || (r0.own[f] == Free && r'.own[f].Tab? && r'.own[f].d == d)
    {
      OnlyNew(r0, r, d, a, v, b, perms, data, f);
    }
    hide Inv;
    forall u | 0 <= u < ALLPAGES
      ensures Flat(r'.pages, d, u) == Flat(r0.pages, d, u)
    {
      assert ReleasedAt(r, r', d, a, b, d, u);
      assert a <= u < v ==> Has(r, d, u, perms[u], data[u]);
    }
    hide Flat, EntryIn;
    forall e | IsDir(r0, e) && e != d
      ensures SameDir(r0, r', e)
    {
      assert SameDir(r0, r, e) && IsDir(r, e);
      forall u | 0 <= u < ALLPAGES
        ensures Flat(r'.pages, e, u) == Flat(r0.pages, e, u)
      {
        assert ReleasedAt(r, r', d, a, b, e, u);
      }
      assert forall i :: 0 <= i < NENTRIES ==> EntryIn(r'.pages, e, i) == EntryIn(r.pages, e, i);
    }
    forall f | 0 <= f < |r0.own| && (r0.own[f].User? || r0.own[f].Kernel?)
      ensures r'.pages[f] == r0.pages[f]
    {
      assert r.own[f] == r0.own[f];
      assert r'.own[f] == r0.own[f];
    }
  }

  lemma OnlyNew(r0: Ram, r: Ram, d: nat, a: nat, v: nat, b: nat, perms: seq<Pte>, data: seq<Page>, f: nat)
    requires Inv(r0) && IsDir(r0, d) && Grown(r0, r, d, a, v, perms, data) && a <= v <= b <= USERPAGES
    requires forall u :: a <= u < b ==> Flat(r0.pages, d, u) == NOPTE
    requires f < |r0.own|
    ensures InRange(r.own[f], d, a, b) ==> r0.own[f] == Free
    ensures !InRange(r.own[f], d, a, b) ==> r.own[f] == r0.own[f] || (r0.own[f] == Free && r.own[f].Tab? && r.own[f].d == d)
  {
    assert FrameOk(r0, f) && FrameOk(r, f);
    if r.own[f].User? && r.own[f].d == d {
      var u := r.own[f].v;
      assert LeafOk(r0, d, u);
    }
  }

  const KERNBASE: nat := 0x8000_0000

  /** PTE_W|PTE_U. */
  const USERPERM: Pte := Pte(0, false, true, true, false, false)

  function ZeroPage(): Page {
    Bytes(seq(PGSIZE, i => 0))
  }

  function UserPerms(n: nat): seq<Pte> {
    seq(n, i => USERPERM)
  }

  function ZeroPages(n: nat): seq<Page> {
    seq(n, i => ZeroPage())
  }

  /** The frames that pages a..b of `d` take, tables included. */
  ghost function Wanted(r: Ram, d: nat, a: nat, b: nat): nat {
    (if a < b then b - a else 0) + Missing(r, d, a, b)
  }

  /** The frames of a child with `n` pages: directory and kernel tables, the pages,
      and a table for every 1024 of them. */
  function ChildFrames(n: nat): nat {
    65 + n + (n + NENTRIES - 1) / NENTRIES
  }

  /** Pages a..b of `d` are new, hold zeros, and are present, writable, the user's. */
  ghost predicate GrownBy(r0: Ram, r: Ram, d: nat, a: nat, b: nat) {
    Grown(r0, r, d, a, b, UserPerms(b), ZeroPages(b))
  }

  /** The same, up to page `v` of them. */
  ghost predicate GrownUpTo(r0: Ram, r: Ram, d: nat, a: nat, v: nat, b: nat) {
    Grown(r0, r, d, a, v, UserPerms(b), ZeroPages(b))
  }

  lemma MappedCost(r: Ram, d: nat, v: nat)
    ensures Mapped(Flat(r.pages, d, v)) ==> Cost(r, d, v) == 0
  {
  }

  /** If nothing was mapped there before, what is released is what was added. */
  lemma AllocStops(r0: Ram, mid: Ram, r: Ram, d: nat, a: nat, v: nat, m: nat, b: nat)
    requires Inv(r0) && IsDir(r0, d) && a <= v <= m <= b <= USERPAGES && GrownUpTo(r0, mid, d, a, v, b)
    requires Released(mid, r, d, a, b) && forall u :: a <= u < m ==> !Mapped(Flat(r0.pages, d, u))
    ensures m == b ==> GaveUp(r0, r, d)
  {
    if m == b {
      forall u | a <= u < b
        ensures Flat(r0.pages, d, u) == NOPTE
      {
        assert LeafOk(r0, d, u);
      }
      hide Inv, Flat, Grown, Released, GaveUp;
      Ungrown(r0, mid, r, d, a, v, b, UserPerms(b), ZeroPages(b));
    }
  }

  lemma GrownNothing(r: Ram, d: nat, a: nat, perms: seq<Pte>, data: seq<Page>)
    requires Inv(r) && IsDir(r, d) && a <= |perms| && a <= |data|
    ensures Grown(r, r, d, a, a, perms, data)
  {
    AddedNothing(r, d);
  }

  lemma UserPages(n: nat)
    ensures |UserPerms(n)| == |ZeroPages(n)| == n
    ensures forall i :: 0 <= i < n ==> UserPerms(n)[i] == USERPERM && ZeroPages(n)[i] == ZeroPage()
  {
  }

  lemma GrownDir(r0: Ram, r: Ram, d: nat, a: nat, v: nat, perms: seq<Pte>, data: seq<Page>)
    requires Grown(r0, r, d, a, v, perms, data)
    ensures IsDir(r, d) && Inv(r)
  {
  }

  lemma GrownUnmapped(r0: Ram, r: Ram, d: nat, a: nat, v: nat, perms: seq<Pte>, data: seq<Page>)
    requires Grown(r0, r, d, a, v, perms, data) && v < ALLPAGES
    ensures Flat(r.pages, d, v) == Flat(r0.pages, d, v)
  {
  }

  /** A page taken and filled can be mapped, and is mapped nowhere yet. */
  lemma FilledMappable(r: Ram, d: nat, v: nat, page: Page)
    requires Inv(r) && IsDir(r, d) && v < USERPAGES && r.free != [] && r.free[0] < |r.own| == |r.pages|
    requires page.Bytes? && |page.data| == PGSIZE
    ensures var m := Filled(r, page);
            && IsDir(m, d) && Flat(m.pages, d, v) == Flat(r.pages, d, v)
            && forall x: Pte :: x.ppn == r.free[0] && x.p != x.e ==> Mappable(m, v, x)
  {
    FilledKeepsInv(r, page);
    assert SameDir(r, Filled(r, page), d);
  }

  // ----------------------------------------------------------- fork's copy

  ghost function PermsOf(r: Ram, d: nat, n: nat): seq<Pte> {
    seq(n, v requires 0 <= v => Flat(r.pages, d, v))
  }

  ghost function PagesOf(r: Ram, d: nat, n: nat): seq<Page> {
    seq(n, v requires 0 <= v => var f := Flat(r.pages, d, v).ppn; if f < |r.pages| then r.pages[f] else NoEntries())
  }

  /** Page `v` of `c` has the flags and the bytes of page `v` of `d`. */
  ghost predicate SamePage(r0: Ram, r: Ram, d: nat, c: nat, v: nat) {
    var x, y := Flat(r0.pages, d, v), Flat(r.pages, c, v);
    && y == x.(ppn := y.ppn) && y.ppn != x.ppn
    && x.ppn < |r0.pages| && y.ppn < |r.pages| && r.pages[y.ppn] == r0.pages[x.ppn]
  }

  /** `c` is a new copy of the first `n` pages of `d`, which is as it was. */
  ghost predicate Copied(r0: Ram, r: Ram, d: nat, c: nat, n: nat, kdata: nat) {
    && IsDir(r, c) && !IsDir(r0, c) && Added(r0, r, c) && SameDir(r0, r, d)
    && (forall v :: 0 <= v < n ==> SamePage(r0, r, d, c, v))
    && (forall v :: n <= v < ALLPAGES ==> Flat(r.pages, c, v) == KernelPte(kdata, v))
  }

  /** copyuvm at work: from `r0`, setupkvm made the child `c` in `r1`. */
  ghost predicate Copying(r0: Ram, r1: Ram, d: nat, c: nat, n: nat, kdata: nat) {
    && Inv(r0) && IsDir(r0, d) && !IsDir(r0, c) && Inv(r1) && Added(r0, r1, c) && KernelUpTo(r1, c, kdata, ALLPAGES)
    && n <= USERPAGES && forall v :: 0 <= v < n ==> Mapped(Flat(r0.pages, d, v))
  }

  /** The parent's page, while the child is being filled. */
  lemma CopySource(r0: Ram, r1: Ram, r: Ram, d: nat, c: nat, v: nat, n: nat, kdata: nat)
    requires Copying(r0, r1, d, c, n, kdata) && v < n
    requires Inv(r) && Grown(r1, r, c, 0, v, PermsOf(r0, d, n), PagesOf(r0, d, n))
    ensures Inv(r1) && v < USERPAGES && IsDir(r, d) && EntryIn(r.pages, d, v / NENTRIES).p && Flat(r.pages, c, v) == NOPTE
    ensures var x := Flat(r.pages, d, v);
            && |PermsOf(r0, d, n)| == |PagesOf(r0, d, n)| == n
            && x == PermsOf(r0, d, n)[v] && x.p != x.e && x.ppn < |r.pages| && r.pages[x.ppn] == PagesOf(r0, d, n)[v]
            && r.pages[x.ppn].Bytes? && |r.pages[x.ppn].data| == PGSIZE
            && forall f :: Installed(f, x) == x.(ppn := f)
  {
    AddedMore(r0, r1, r, c);
    assert SameDir(r0, r, d);
    assert LeafOk(r0, d, v);
    assert FrameOk(r0, Flat(r0.pages, d, v).ppn);
    assert Flat(r.pages, c, v) == Flat(r1.pages, c, v) == NOPTE;
  }

  /** Taking a frame, filling it and giving it back. */
  lemma LentBack(r: Ram, m: Ram, page: Page)
    requires Inv(r) && r.free != [] && r.free[0] < |r.own| == |r.pages| && m == Filled(r, page)
    ensures Restored(r, Give(m, r.free[0]))
  {
    FilledKeepsInv(r, page);
    GiveKeepsInv(m, r.free[0]);
    var r' := Give(m, r.free[0]);
    assert r'.own == r.own;
    forall d | IsDir(r, d)
      ensures SameDir(r, r', d)
    {
      assert IsDir(m, d) && SameDir(r, m, d) && SameDir(m, r', d);
    }
  }

  /** Freeing the half-made child, with the last frame given back before. */
  lemma GrownUndone(r0: Ram, r1: Ram, r: Ram, m: Ram, r': Ram, d: nat, c: nat, v: nat, n: nat, kdata: nat)
    requires Copying(r0, r1, d, c, n, kdata) && Grown(r1, r, c, 0, v, PermsOf(r0, d, n), PagesOf(r0, d, n))
    requires m == r || Restored(r, m)
    requires Freed(m, r', c)
    ensures Restored(r0, r')
  {
    AddedMore(r0, r1, r, c);
    if m != r {
      assert Added(r, m, c);
      AddedMore(r0, r, m, c);
    }
    Undone(r0, m, r', c);
  }

  /** The first page from `v` on that is mapped, or `n`. */
  ghost function FirstMapped(r: Ram, d: nat, v: nat, n: nat): (m: nat)
    requires v <= n
    ensures v <= m <= n && (m < n ==> Mapped(Flat(r.pages, d, m)))
    ensures forall u :: v <= u < m ==> !Mapped(Flat(r.pages, d, u))
    decreases n - v
  {
    if v == n || Mapped(Flat(r.pages, d, v)) then v else FirstMapped(r, d, v + 1, n)
  }

  /** The first page from `v` on that is not mapped, or `n`. */
  ghost function FirstGap(r: Ram, d: nat, v: nat, n: nat): (m: nat)
    requires v <= n
    ensures v <= m <= n && (m < n ==> !Mapped(Flat(r.pages, d, m)))
    ensures forall u :: v <= u < m ==> Mapped(Flat(r.pages, d, u))
    decreases n - v
  {
    if v == n || !Mapped(Flat(r.pages, d, v)) then v else FirstGap(r, d, v + 1, n)
  }

  lemma CopyStart(r0: Ram, r1: Ram, d: nat, c: nat, m: nat, kdata: nat)
    requires Inv(r0) && IsDir(r0, d) && !IsDir(r0, c) && Inv(r1) && IsDir(r1, c) && Added(r0, r1, c)
    requires KernelUpTo(r1, c, kdata, ALLPAGES) && TablesBelow(r1, c, ALLPAGES)
    requires m <= USERPAGES && forall v :: 0 <= v < m ==> Mapped(Flat(r0.pages, d, v))
    ensures Copying(r0, r1, d, c, m, kdata) && Paid(r1, r1, c, 0, 0, 0)
    ensures Grown(r1, r1, c, 0, 0, PermsOf(r0, d, m), PagesOf(r0, d, m))
    ensures Missing(r1, c, 0, m) == (m + NENTRIES - 1) / NENTRIES
  {
    GrownNothing(r1, c, 0, PermsOf(r0, d, m), PagesOf(r0, d, m));
    PaidNothing(r1, c, 0);
    UserMissing(r1, c, m);
  }

  /** The parent is mapped as it was while its child is made. */
  lemma ParentSame(r0: Ram, r1: Ram, r: Ram, d: nat, c: nat, m: nat, kdata: nat, k: nat, v: nat)
    requires Copying(r0, r1, d, c, m, kdata) && k <= m && v < ALLPAGES
    requires Inv(r) && Grown(r1, r, c, 0, k, PermsOf(r0, d, m), PagesOf(r0, d, m))
    ensures Flat(r.pages, d, v) == Flat(r0.pages, d, v)
  {
    AddedMore(r0, r1, r, c);
    assert SameDir(r0, r, d);
  }

  lemma CopiedAll(r0: Ram, r1: Ram, r: Ram, d: nat, c: nat, n: nat, kdata: nat)
    requires Copying(r0, r1, d, c, n, kdata)
    requires Inv(r) && Grown(r1, r, c, 0, n, PermsOf(r0, d, n), PagesOf(r0, d, n))
    ensures Copied(r0, r, d, c, n, kdata)
  {
    AddedMore(r0, r1, r, c);
    assert SameDir(r0, r, d);
    forall v | 0 <= v < n
      ensures SamePage(r0, r, d, c, v)
    {
      assert Has(r, c, v, PermsOf(r0, d, n)[v], PagesOf(r0, d, n)[v]);
      assert LeafOk(r0, d, v) && LeafOk(r, d, v) && LeafOk(r, c, v);
      assert FrameOk(r0, Flat(r0.pages, d, v).ppn);
    }
  }
}
