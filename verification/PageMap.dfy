/** Physical page frames and the two-level page tables built from them (vm.c,
    kalloc.c): which frame is where, what each directory maps, and what one change
    to either does to both. Frames and virtual pages go by number. */
module PageMap {
  import opened Common

  const PGSIZE: nat := 4096
  /** Entries in a directory or a table. */
  const NENTRIES: nat := 1024
  /** The virtual pages below KERNBASE. */
  const USERPAGES: nat := 0x80000

  /** An entry: a frame, and the present, writeable, user, accessed and encrypted bits. */
  datatype Pte = Pte(ppn: nat, p: bool, w: bool, u: bool, a: bool, e: bool)

  /** All virtual pages: the lower half is user memory. */
  const ALLPAGES: nat := 0x100000

  const NOPTE: Pte := Pte(0, false, false, false, false, false)

  datatype Page = Bytes(data: seq<Byte>) | Entries(ptes: seq<Pte>)

  /** Where a frame is: on the free list, with the kernel for its own purposes, a
      page directory, table `i` of directory `d`, or virtual page `v` of `d`. */
  datatype Place = Free | Kernel | Dir | Tab(d: nat, i: nat) | User(d: nat, v: nat)

  /** Memory: the free list, every frame's contents and place. Frames below `lo`
      hold the kernel image. */
  datatype Ram = Ram(lo: nat, free: seq<nat>, pages: seq<Page>, own: seq<Place>)

  function EntryIn(pages: seq<Page>, f: nat, i: nat): Pte {
    if f < |pages| && pages[f].Entries? && i < |pages[f].ptes| then pages[f].ptes[i] else NOPTE
  }

  /** The two levels as one map from virtual pages. */
  function Flat(pages: seq<Page>, d: nat, v: nat): Pte {
    var pde := EntryIn(pages, d, v / NENTRIES);
    if pde.p then EntryIn(pages, pde.ppn, v % NENTRIES) else NOPTE
  }

  predicate Mapped(x: Pte) {
    x.p || x.e
  }

  predicate IsDir(r: Ram, d: nat) {
    d < |r.own| && r.own[d] == Dir
  }

  // -------------------------------------------------------------- invariant

  /** The free list holds exactly the free frames, each once. */
  ghost predicate FreeOk(r: Ram) {
    && (forall i, j :: 0 <= i < j < |r.free| ==> r.free[i] != r.free[j])
    && (forall f: nat :: f in r.free <==> f < |r.own| && r.own[f] == Free)
  }

  /** A frame is where it is said to be, and holds what it should there. */
  ghost predicate FrameOk(r: Ram, f: nat) {
    f < |r.own| == |r.pages| &&
    match r.own[f]
    case Free => f >= r.lo
    case Kernel => true
    case Dir => f >= r.lo && r.pages[f].Entries? && |r.pages[f].ptes| == NENTRIES
    case Tab(d, i) =>
      && f >= r.lo && r.pages[f].Entries? && |r.pages[f].ptes| == NENTRIES
      && IsDir(r, d) && i < NENTRIES && EntryIn(r.pages, d, i).p && EntryIn(r.pages, d, i).ppn == f
    case User(d, v) =>
      && f >= r.lo && r.pages[f].Bytes? && |r.pages[f].data| == PGSIZE
      && IsDir(r, d) && v < USERPAGES && Mapped(Flat(r.pages, d, v)) && Flat(r.pages, d, v).ppn == f
  }

  /** A directory entry is absent or leads to a table that is in no other place. */
  ghost predicate DirOk(r: Ram, d: nat, i: nat) {
    IsDir(r, d) && i < NENTRIES ==>
      var pde := EntryIn(r.pages, d, i);
      !pde.e && (pde.p ==> pde.ppn < |r.own| && r.own[pde.ppn] == Tab(d, i))
  }

  /** A user page is absent, or is present or encrypted but not both, and its frame
      is in no other place. */
  ghost predicate LeafOk(r: Ram, d: nat, v: nat) {
    IsDir(r, d) && v < USERPAGES ==>
      var pte := Flat(r.pages, d, v);
      && (Mapped(pte) ==> pte.p != pte.e && pte.ppn < |r.own| && r.own[pte.ppn] == User(d, v))
      && (!Mapped(pte) ==> pte == NOPTE)
  }

  ghost predicate Inv(r: Ram) {
    && |r.own| == |r.pages| && FreeOk(r)
    && (forall f :: 0 <= f < |r.own| ==> FrameOk(r, f))
    && (forall d, i :: DirOk(r, d, i))
    && (forall d, v :: LeafOk(r, d, v))
  }

  // ------------------------------------------------ what a directory maps

  /** Directory `d` has the same tables and maps the same pages. */
  ghost predicate SameDir(r: Ram, r': Ram, d: nat) {
    && (forall i :: 0 <= i < NENTRIES ==> EntryIn(r'.pages, d, i) == EntryIn(r.pages, d, i))
    && (forall v :: 0 <= v < ALLPAGES ==> Flat(r'.pages, d, v) == Flat(r.pages, d, v))
  }

  ghost predicate SameDirs(r: Ram, r': Ram) {
    forall d :: IsDir(r, d) ==> SameDir(r, r', d)
  }

  /** A frame outside the page tables changes: no directory is affected. */
  lemma OutsideTables(r: Ram, r': Ram, f: nat)
    requires Inv(r) && f < |r.own| && !r.own[f].Dir? && !r.own[f].Tab?
    requires |r'.pages| == |r.pages| && forall g :: 0 <= g < |r.pages| && g != f ==> r'.pages[g] == r.pages[g]
    ensures SameDirs(r, r')
  {
    forall d | IsDir(r, d)
      ensures SameDir(r, r', d)
    {
      forall v | 0 <= v < ALLPAGES
        ensures Flat(r'.pages, d, v) == Flat(r.pages, d, v)
      {
        assert DirOk(r, d, v / NENTRIES);
      }
    }
  }

  // ------------------------------------------------------------- free list

  /** kalloc: the first free frame goes to the kernel. */
  function Take(r: Ram): Ram
    requires r.free != [] && r.free[0] < |r.own|
  {
    r.(free := r.free[1..], own := r.own[r.free[0] := Kernel])
  }

  /** kfree fills a frame with ones and puts it on the free list. */
  function Junk(): Page {
    Bytes(seq(PGSIZE, i => 1))
  }

  function Give(r: Ram, f: nat): Ram
    requires f < |r.own| == |r.pages|
  {
    r.(free := [f] + r.free, pages := r.pages[f := Junk()], own := r.own[f := Free])
  }

  /** A frame between the free list and the kernel. */
  lemma Moved(r: Ram, r': Ram, f: nat)
    requires Inv(r) && f < |r.own| && (r.own[f].Free? || r.own[f].Kernel?)
    requires r'.lo == r.lo && |r'.own| == |r.own| && (r'.own[f].Kernel? || (r'.own[f].Free? && f >= r.lo))
    requires forall g :: 0 <= g < |r.own| && g != f ==> r'.own[g] == r.own[g]
    requires |r'.pages| == |r.pages| && forall g :: 0 <= g < |r.pages| && g != f ==> r'.pages[g] == r.pages[g]
    requires FreeOk(r')
    ensures Inv(r') && SameDirs(r, r')
  {
    OutsideTables(r, r', f);
    forall g | 0 <= g < |r'.own|
      ensures FrameOk(r', g)
    {
      assert FrameOk(r, g);
      if r.own[g].User? {
        assert SameDir(r, r', r.own[g].d);
      } else if r.own[g].Tab? {
        assert SameDir(r, r', r.own[g].d);
      }
    }
    forall d, i
      ensures DirOk(r', d, i)
    {
      assert DirOk(r, d, i);
      assert IsDir(r, d) ==> SameDir(r, r', d);
    }
    forall d, v
      ensures LeafOk(r', d, v)
    {
      assert LeafOk(r, d, v);
      assert IsDir(r, d) ==> SameDir(r, r', d);
    }
  }

  lemma TakeKeepsInv(r: Ram)
    requires Inv(r) && r.free != []
    ensures r.free[0] in r.free && r.lo <= r.free[0] < |r.own| && r.own[r.free[0]] == Free
    ensures Inv(Take(r)) && SameDirs(r, Take(r))
  {
    var f := r.free[0];
    assert f in r.free;
    var r' := Take(r);
    forall g: nat
      ensures g in r'.free <==> g < |r'.own| && r'.own[g] == Free
    {
      assert g in r.free <==> g in r'.free || g == f by {
        assert r.free == [f] + r'.free;
      }
    }
    assert FrameOk(r, f);
    assert FreeOk(r');
    Moved(r, r', f);
  }

  lemma GiveKeepsInv(r: Ram, f: nat)
    requires Inv(r) && r.lo <= f < |r.own| && r.own[f] == Kernel
    ensures Inv(Give(r, f)) && SameDirs(r, Give(r, f))
  {
    var r' := Give(r, f);
    assert f !in r.free;
    Moved(r, r', f);
  }

  // ----------------------------------------------------------- page tables

  function NoEntries(): Page {
    Entries(seq(NENTRIES, i => NOPTE))
  }

  function SetEntry(pages: seq<Page>, f: nat, i: nat, x: Pte): seq<Page>
    requires f < |pages| && pages[f].Entries? && i < |pages[f].ptes|
  {
    pages[f := Entries(pages[f].ptes[i := x])]
  }

  /** A frame of the kernel's becomes an empty directory. */
  function NewDir(r: Ram, d: nat): Ram
    requires d < |r.own| == |r.pages|
  {
    r.(pages := r.pages[d := NoEntries()], own := r.own[d := Dir])
  }

  lemma NewDirKeepsInv(r: Ram, d: nat)
    requires Inv(r) && r.lo <= d < |r.own| && r.own[d] == Kernel
    ensures Inv(NewDir(r, d)) && SameDirs(r, NewDir(r, d))
    ensures forall i :: 0 <= i < NENTRIES ==> EntryIn(NewDir(r, d).pages, d, i) == NOPTE
    ensures forall v :: 0 <= v < ALLPAGES ==> Flat(NewDir(r, d).pages, d, v) == NOPTE
  {
    var r' := NewDir(r, d);
    OutsideTables(r, r', d);
    forall g | 0 <= g < |r'.own|
      ensures FrameOk(r', g)
    {
      assert FrameOk(r, g);
      if r.own[g].User? {
        assert SameDir(r, r', r.own[g].d);
      } else if r.own[g].Tab? {
        assert SameDir(r, r', r.own[g].d);
      }
    }
    forall e, i
      ensures DirOk(r', e, i)
    {
      assert DirOk(r, e, i);
      assert IsDir(r, e) ==> SameDir(r, r', e);
    }
    forall e, v
      ensures LeafOk(r', e, v)
    {
      assert LeafOk(r, e, v);
      assert IsDir(r, e) ==> SameDir(r, r', e);
    }
  }

  /** A frame of the kernel's becomes table `i` of directory `d`. */
  function NewTable(r: Ram, d: nat, i: nat, t: nat): Ram
    requires d < |r.own| == |r.pages| && t < |r.own| && t != d
    requires r.pages[d].Entries? && i < |r.pages[d].ptes|
  {
    r.(pages := SetEntry(r.pages, d, i, Pte(t, true, true, true, false, false))[t := NoEntries()], own := r.own[t := Tab(d, i)])
  }

  /** Every page stays mapped as it was. */
  ghost predicate SameFlat(r: Ram, r': Ram) {
    forall d, v :: IsDir(r, d) && 0 <= v < ALLPAGES ==> Flat(r'.pages, d, v) == Flat(r.pages, d, v)
  }

  lemma NewTableMaps(r: Ram, d: nat, i: nat, t: nat)
    requires Inv(r) && IsDir(r, d) && i < NENTRIES && !EntryIn(r.pages, d, i).p
    requires r.lo <= t < |r.own| && r.own[t] == Kernel
    ensures FrameOk(r, d) && SameFlat(r, NewTable(r, d, i, t))
    ensures forall e, j :: IsDir(r, e) && 0 <= j < NENTRIES && (e != d || j != i) ==>
              EntryIn(NewTable(r, d, i, t).pages, e, j) == EntryIn(r.pages, e, j)
    ensures EntryIn(NewTable(r, d, i, t).pages, d, i) == Pte(t, true, true, true, false, false)
  {
    assert FrameOk(r, d);
    var r' := NewTable(r, d, i, t);
    forall e, v | IsDir(r, e) && 0 <= v < ALLPAGES
      ensures Flat(r'.pages, e, v) == Flat(r.pages, e, v)
    {
      assert DirOk(r, e, v / NENTRIES);
    }
  }

  lemma NewTableKeepsInv(r: Ram, d: nat, i: nat, t: nat)
    requires Inv(r) && IsDir(r, d) && i < NENTRIES && !EntryIn(r.pages, d, i).p
    requires r.lo <= t < |r.own| && r.own[t] == Kernel
    ensures FrameOk(r, d) && Inv(NewTable(r, d, i, t)) && SameFlat(r, NewTable(r, d, i, t))
  {
    assert FrameOk(r, d);
    var r' := NewTable(r, d, i, t);
    NewTableMaps(r, d, i, t);
    hide Flat;
    forall g | 0 <= g < |r'.own|
      ensures FrameOk(r', g)
    {
      assert FrameOk(r, g);
    }
    forall e, j
      ensures DirOk(r', e, j)
    {
      assert DirOk(r, e, j);
    }
    forall e, v
      ensures LeafOk(r', e, v)
    {
      assert LeafOk(r, e, v);
    }
  }

  /** One leaf entry changes. */
  function SetLeaf(r: Ram, d: nat, v: nat, x: Pte): seq<Page>
    requires Leafy(r, d, v)
  {
    SetEntry(r.pages, EntryIn(r.pages, d, v / NENTRIES).ppn, v % NENTRIES, x)
  }

  /** There is a table for page `v`. */
  predicate Leafy(r: Ram, d: nat, v: nat) {
    var t := EntryIn(r.pages, d, v / NENTRIES);
    t.p && t.ppn < |r.pages| && r.pages[t.ppn].Entries? && |r.pages[t.ppn].ptes| == NENTRIES
  }

  lemma HasTable(r: Ram, d: nat, v: nat)
    requires Inv(r) && IsDir(r, d) && v < ALLPAGES && EntryIn(r.pages, d, v / NENTRIES).p
    ensures Leafy(r, d, v) && EntryIn(r.pages, d, v / NENTRIES).ppn < |r.own|
    ensures r.own[EntryIn(r.pages, d, v / NENTRIES).ppn] == Tab(d, v / NENTRIES)
  {
    assert DirOk(r, d, v / NENTRIES);
    assert FrameOk(r, EntryIn(r.pages, d, v / NENTRIES).ppn);
  }

  /** Setting the entry of page `v` of `d` changes that page's mapping only. */
  lemma SetLeafMaps(r: Ram, d: nat, v: nat, x: Pte)
    requires Inv(r) && IsDir(r, d) && v < ALLPAGES && EntryIn(r.pages, d, v / NENTRIES).p
    ensures Leafy(r, d, v)
    ensures forall e, i :: IsDir(r, e) && 0 <= i < NENTRIES ==> EntryIn(SetLeaf(r, d, v, x), e, i) == EntryIn(r.pages, e, i)
    ensures forall e, u :: IsDir(r, e) && 0 <= u < ALLPAGES ==>
              Flat(SetLeaf(r, d, v, x), e, u) == if e == d && u == v then x else Flat(r.pages, e, u)
  {
    HasTable(r, d, v);
    var pages' := SetLeaf(r, d, v, x);
    forall e, u | IsDir(r, e) && 0 <= u < ALLPAGES
      ensures Flat(pages', e, u) == if e == d && u == v then x else Flat(r.pages, e, u)
    {
      if EntryIn(r.pages, e, u / NENTRIES).p {
        HasTable(r, e, u);
      }
    }
  }

  // ------------------------------------------------------------ user pages

  /** A frame of the kernel's becomes page `v` of `d`. */
  function MapUser(r: Ram, d: nat, v: nat, x: Pte): Ram
    requires Leafy(r, d, v) && x.ppn < |r.own|
  {
    r.(pages := SetLeaf(r, d, v, x), own := r.own[x.ppn := User(d, v)])
  }

  lemma MapUserKeepsInv(r: Ram, d: nat, v: nat, x: Pte)
    requires Inv(r) && IsDir(r, d) && v < USERPAGES && EntryIn(r.pages, d, v / NENTRIES).p && !Mapped(Flat(r.pages, d, v))
    requires r.lo <= x.ppn < |r.own| && r.own[x.ppn] == Kernel && x.p != x.e
    requires r.pages[x.ppn].Bytes? && |r.pages[x.ppn].data| == PGSIZE
    ensures Leafy(r, d, v) && Inv(MapUser(r, d, v, x))
  {
    SetLeafMaps(r, d, v, x);
    HasTable(r, d, v);
    var r' := MapUser(r, d, v, x);
    hide Flat, EntryIn;
    forall g | 0 <= g < |r'.own|
      ensures FrameOk(r', g)
    {
      assert FrameOk(r, g);
    }
    forall e, j
      ensures DirOk(r', e, j)
    {
      assert DirOk(r, e, j);
    }
    forall e, u
      ensures LeafOk(r', e, u)
    {
      assert LeafOk(r, e, u);
    }
  }

  /** An entry of the kernel's half. */
  lemma MapKernelKeepsInv(r: Ram, d: nat, v: nat, x: Pte)
    requires Inv(r) && IsDir(r, d) && USERPAGES <= v < ALLPAGES && EntryIn(r.pages, d, v / NENTRIES).p
    ensures Leafy(r, d, v) && Inv(r.(pages := SetLeaf(r, d, v, x)))
  {
    SetLeafMaps(r, d, v, x);
    HasTable(r, d, v);
    var r' := r.(pages := SetLeaf(r, d, v, x));
    hide Flat, EntryIn;
    forall g | 0 <= g < |r'.own|
      ensures FrameOk(r', g)
    {
      assert FrameOk(r, g);
    }
    forall e, j
      ensures DirOk(r', e, j)
    {
      assert DirOk(r, e, j);
    }
    forall e, u
      ensures LeafOk(r', e, u)
    {
      assert LeafOk(r, e, u);
    }
  }

  /** Other flags for a page that is mapped: present or encrypted, not both. */
  lemma ReflagKeepsInv(r: Ram, d: nat, v: nat, x: Pte)
    requires Inv(r) && IsDir(r, d) && v < USERPAGES && Mapped(Flat(r.pages, d, v))
    requires x.ppn == Flat(r.pages, d, v).ppn && x.p != x.e
    ensures Leafy(r, d, v) && Inv(r.(pages := SetLeaf(r, d, v, x)))
  {
    SetLeafMaps(r, d, v, x);
    HasTable(r, d, v);
    var r' := r.(pages := SetLeaf(r, d, v, x));
    hide Flat, EntryIn;
    forall g | 0 <= g < |r'.own|
      ensures FrameOk(r', g)
    {
      assert FrameOk(r, g);
      assert LeafOk(r, d, v);
    }
    forall e, j
      ensures DirOk(r', e, j)
    {
      assert DirOk(r, e, j);
    }
    forall e, u
      ensures LeafOk(r', e, u)
    {
      assert LeafOk(r, e, u) && LeafOk(r, d, v);
    }
  }

  /** Page `v` of `d` is unmapped and its frame freed. */
  function FreeUser(r: Ram, d: nat, v: nat): Ram
    requires Leafy(r, d, v) && Flat(r.pages, d, v).ppn < |r.own| == |r.pages|
  {
    var f := Flat(r.pages, d, v).ppn;
    r.(free := [f] + r.free, pages := SetLeaf(r, d, v, NOPTE)[f := Junk()], own := r.own[f := Free])
  }

  lemma FreeUserKeepsInv(r: Ram, d: nat, v: nat)
    requires Inv(r) && IsDir(r, d) && v < USERPAGES && Mapped(Flat(r.pages, d, v))
    ensures Leafy(r, d, v) && LeafOk(r, d, v)
    ensures Inv(FreeUser(r, d, v))
    ensures forall e, i :: IsDir(r, e) && 0 <= i < NENTRIES ==> EntryIn(FreeUser(r, d, v).pages, e, i) == EntryIn(r.pages, e, i)
    ensures forall e, u :: IsDir(r, e) && 0 <= u < ALLPAGES ==>
              Flat(FreeUser(r, d, v).pages, e, u) == if e == d && u == v then NOPTE else Flat(r.pages, e, u)
  {
    assert LeafOk(r, d, v);
    var f := Flat(r.pages, d, v).ppn;
    assert FrameOk(r, f);
    SetLeafMaps(r, d, v, NOPTE);
    Unmapped(r, d, v, f);
    var m := r.(pages := SetLeaf(r, d, v, NOPTE), own := r.own[f := Kernel]);
    var r' := FreeUser(r, d, v);
    assert r' == Give(m, f);
    GiveKeepsInv(m, f);
    hide Inv, EntryIn, Flat, FreeUser, Give;
    forall e, i | IsDir(r, e) && 0 <= i < NENTRIES
      ensures EntryIn(r'.pages, e, i) == EntryIn(r.pages, e, i)
    {
      assert IsDir(m, e);
    }
    forall e, u | IsDir(r, e) && 0 <= u < ALLPAGES
      ensures Flat(r'.pages, e, u) == if e == d && u == v then NOPTE else Flat(r.pages, e, u)
    {
      assert IsDir(m, e);
    }
  }

  lemma Unmapped(r: Ram, d: nat, v: nat, f: nat)
    requires Inv(r) && IsDir(r, d) && v < USERPAGES && Mapped(Flat(r.pages, d, v)) && f == Flat(r.pages, d, v).ppn
    ensures Leafy(r, d, v) && f < |r.own| && Inv(r.(pages := SetLeaf(r, d, v, NOPTE), own := r.own[f := Kernel]))
  {
    assert LeafOk(r, d, v);
    SetLeafMaps(r, d, v, NOPTE);
    HasTable(r, d, v);
    var m := r.(pages := SetLeaf(r, d, v, NOPTE), own := r.own[f := Kernel]);
    hide Flat, EntryIn;
    forall g | 0 <= g < |m.own|
      ensures FrameOk(m, g)
    {
      assert FrameOk(r, g);
    }
    forall e, j
      ensures DirOk(m, e, j)
    {
      assert DirOk(r, e, j);
    }
    forall e, u
      ensures LeafOk(m, e, u)
    {
      assert LeafOk(r, e, u);
    }
  }

  /** New contents for a user page. */
  lemma SetDataKeepsInv(r: Ram, f: nat, data: seq<Byte>)
    requires Inv(r) && f < |r.own| && r.own[f].User? && |data| == PGSIZE
    ensures Inv(r.(pages := r.pages[f := Bytes(data)])) && SameDirs(r, r.(pages := r.pages[f := Bytes(data)]))
  {
    var r' := r.(pages := r.pages[f := Bytes(data)]);
    OutsideTables(r, r', f);
    hide Flat, EntryIn;
    forall g | 0 <= g < |r'.own|
      ensures FrameOk(r', g)
    {
      assert FrameOk(r, g);
      if r.own[g].User? || r.own[g].Tab? {
        assert SameDir(r, r', r.own[g].d);
      }
    }
    forall e, j
      ensures DirOk(r', e, j)
    {
      assert DirOk(r, e, j);
      assert IsDir(r, e) ==> SameDir(r, r', e);
    }
    forall e, u
      ensures LeafOk(r', e, u)
    {
      assert LeafOk(r, e, u);
      assert IsDir(r, e) ==> SameDir(r, r', e);
    }
  }
}
