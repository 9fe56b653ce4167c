/** The page allocator (kalloc.c) and the operations on address spaces (vm.c). */
module Vm {
  import opened PageMap
  import opened AddressSpace
  import opened Encryption
  import opened Clock

  /** What mencrypt and mdecrypt return. `Unknown` stands for a lookup that went wild
      (see Encryption.Lookup): what the source does then depends on the page the
      process keeps at address 0, and is not modelled. */
  datatype Outcome = Zero | Minus | Unknown

  /** The part of a process that the clock queue works on. */
  class Process {
    const pgdir: nat
    var clock: seq<nat>
    var head: nat

    function Q(): Queue
      reads this
    {
      Queue(clock, head)
    }

    /** After exec: every slot empty. */
    constructor (pgdir: nat)
      ensures this.pgdir == pgdir && head == 0 && clock == seq(CLOCKSIZE, i => 0)
    {
      this.pgdir := pgdir;
      clock := seq(CLOCKSIZE, i => 0);
      head := 0;
    }

    /** inQ: a slot that holds exactly this address, the first one from the head; -1
        if there is none. The address is not rounded down. */
    method InQ(va: nat) returns (k: int)
      requires |clock| == CLOCKSIZE && head < CLOCKSIZE
      ensures k == -1 <==> va !in clock
      ensures k != -1 ==> 0 <= k < CLOCKSIZE && clock[k] == va
      ensures k != -1 ==> forall j :: 0 <= j < CLOCKSIZE && clock[j] == va ==> Above(Q(), k) <= Above(Q(), j)
    {
      var i := head;
      while i < head + CLOCKSIZE
        invariant head <= i <= head + CLOCKSIZE
        invariant forall j :: 0 <= j < CLOCKSIZE && Above(Q(), j) < i - head ==> clock[j] != va
      {
        assert Above(Q(), i % CLOCKSIZE) == i - head;
        assert forall j :: 0 <= j < CLOCKSIZE && Above(Q(), j) == i - head ==> j == i % CLOCKSIZE;
        if clock[i % CLOCKSIZE] == va {
          return i % CLOCKSIZE;
        }
        i := i + 1;
      }
      return -1;
    }
  }

  /** setupkvm makes the kernel's half what mencrypt and mdecrypt rely on. */
  lemma SetupIsKernelOnly(r: Ram, d: nat, data: nat)
    requires KernelUpTo(r, d, data, ALLPAGES)
    ensures KernelOnly(r, d)
  {
    hide Flat;
    forall v | USERPAGES <= v < ALLPAGES
      ensures KernelPage(Flat(r.pages, d, v))
    {
      assert Flat(r.pages, d, v) == KernelPte(data, v);
    }
  }

  /** mappages: done, out of memory, or the panic for a page mapped already. */
  datatype Mapping = Done | NoMemory | Remap

  /** A child's pages read as the parent's did, from frames of its own. */
  lemma ChildReadsTheSame(r0: Ram, r: Ram, d: nat, c: nat, n: nat, kdata: nat, v: nat)
    requires Inv(r0) && IsDir(r0, d) && Copied(r0, r, d, c, n, kdata) && v < n <= USERPAGES
    ensures Plain(r.pages, c, v) == Plain(r0.pages, d, v) && Plain(r.pages, d, v) == Plain(r0.pages, d, v)
    ensures Flat(r.pages, c, v).ppn != Flat(r.pages, d, v).ppn
  {
    assert SamePage(r0, r, d, c, v) && SameDir(r0, r, d);
    assert LeafOk(r0, d, v);
    if Mapped(Flat(r0.pages, d, v)) {
      assert r0.own[Flat(r0.pages, d, v).ppn].User?;
    }
  }

  /** fork and then freeing the child puts every frame back where it was. */
  lemma ForkThenFree(r0: Ram, r: Ram, r': Ram, d: nat, c: nat, n: nat, kdata: nat)
    requires Inv(r0) && Copied(r0, r, d, c, n, kdata) && Freed(r, r', c)
    ensures Restored(r0, r')
  {
    Undone(r0, r, r', c);
  }

  class Vm {
    /** frames below `lo` hold the kernel image */
    const lo: nat
    var free: seq<nat>
    var pages: seq<Page>
    ghost var own: seq<Place>

    ghost function R(): Ram
      reads this
    {
      Ram(lo, free, pages, own)
    }

    ghost predicate Valid()
      reads this
    {
      Inv(R())
    }

    /** Before kinit: nothing free, nothing mapped, every frame the kernel's. */
    constructor (lo: nat, frames: nat)
      ensures this.lo == lo && free == [] && |own| == frames && Valid()
      ensures forall f :: 0 <= f < frames ==> own[f] == Kernel
    {
      this.lo := lo;
      free := [];
      pages := seq(frames, i => Junk());
      own := seq(frames, i => Kernel);
    }

    method Kalloc() returns (ok: bool, f: nat)
      requires Valid()
      modifies this`free, this`own
      ensures Valid()
      ensures ok <==> old(free) != []
      ensures !ok ==> R() == old(R())
      ensures ok ==> f == old(free)[0] && lo <= f < |own| && old(own)[f] == Free && R() == Take(old(R()))
    {
      if free == [] {
        return false, 0;
      }
      TakeKeepsInv(R());
      f := free[0];
      free := free[1..];
      own := own[f := Kernel];
      ok := true;
    }

    method Kfree(f: nat)
      requires Valid() && lo <= f < |own| && own[f] == Kernel
      modifies this`free, this`pages, this`own
      ensures Valid() && R() == Give(old(R()), f)
    {
      GiveKeepsInv(R(), f);
      pages := pages[f := Junk()];
      free := [f] + free;
      own := own[f := Free];
    }

    /** freerange, in whole pages: the allocator starts with exactly those. */
    method FreeRange(from: nat, to: nat)
      requires Valid() && lo <= from <= to <= |own|
      requires forall f :: from <= f < to ==> own[f] == Kernel
      modifies this`free, this`pages, this`own
      ensures Valid() && |own| == |old(own)|
      ensures forall f :: 0 <= f < |own| ==> own[f] == if from <= f < to then Free else old(own)[f]
    {
      var f := from;
      while f < to
        invariant from <= f <= to && Valid() && |own| == |old(own)|
        invariant forall g :: 0 <= g < |own| ==> own[g] == if from <= g < f then Free else old(own)[g]
      {
        Kfree(f);
        f := f + 1;
      }
    }

    /** walkpgdir: the table with the entry of page `v`, made if `alloc` says so.
        `ok` is false where the source returns 0. */
    method WalkPgdir(d: nat, v: nat, alloc: bool) returns (ok: bool, t: nat)
      requires Valid() && IsDir(R(), d) && v < ALLPAGES
      modifies this`free, this`pages, this`own
      ensures Walked(old(R()), R(), d, v)
      ensures !alloc || !ok || EntryIn(old(pages), d, v / NENTRIES).p ==> R() == old(R())
      ensures ok <==> EntryIn(old(pages), d, v / NENTRIES).p || (alloc && old(free) != [])
      ensures ok ==> EntryIn(pages, d, v / NENTRIES) == EntryIn(pages, d, v / NENTRIES).(ppn := t, p := true)
      ensures ok && !EntryIn(old(pages), d, v / NENTRIES).p ==>
                && EntryIn(pages, d, v / NENTRIES) == Pte(t, true, true, true, false, false)
                && forall u :: 0 <= u < NENTRIES ==> EntryIn(pages, t, u) == NOPTE
      ensures ok ==> Leafy(R(), d, v) && t < |pages|
    {
      var i := v / NENTRIES;
      assert FrameOk(R(), d);
      var pde := pages[d].ptes[i];
      if pde.p {
        HasTable(R(), d, v);
        return true, pde.ppn;
      }
      if !alloc {
        return false, 0;
      }
      ok, t := Kalloc();
      if !ok {
        return;
      }
      WalkedNew(old(R()), d, v);
      ghost var m := R();
      assert FrameOk(m, d);
      hide Inv, Walked;
      pages := pages[t := NoEntries()];
      pages := SetEntry(pages, d, i, Pte(t, true, true, true, false, false));
      own := own[t := Tab(d, i)];
      assert pages == NewTable(m, d, i, t).pages;
    }

    /** deallocuvm from page `a` up to page `b`: a missing table means that its
        whole span can be skipped. */
    method Dealloc(d: nat, a: nat, b: nat)
      requires Valid() && IsDir(R(), d) && b <= USERPAGES
      modifies this`free, this`pages, this`own
      ensures Valid() && Released(old(R()), R(), d, a, if a < b then b else a)
    {
      hide Inv, Released, FreeUser, Give, Flat, EntryIn, SetLeaf;
      ghost var r0 := R();
      ReleasedNothing(r0, d, a);
      var v := a;
      while v < b
        invariant a <= v && (if a <= b then v <= b else v == a) && Valid() && IsDir(R(), d)
        invariant Released(r0, R(), d, a, v)
      {
        ghost var r := R();
        var ok, t := WalkPgdir(d, v, false);
        var w := v + 1;
        if !ok {
          w := (v / NENTRIES + 1) * NENTRIES;
          if w > b {
            w := b;
          }
          NoTable(r, d, v, w);
          ReleasedNone(r0, r, d, a, v, w);
        } else {
          var pte := pages[t].ptes[v % NENTRIES];
          EntryOf(r, d, v);
          if pte.p || pte.e {
            ReleasedOne(r0, r, d, a, v);
            FreeUserKeepsInv(r, d, v);
            FreesInOrder(r, d, v, t);
            pages := pages[pte.ppn := Junk()];
            free := [pte.ppn] + free;
            pages := SetEntry(pages, t, v % NENTRIES, NOPTE);
            own := own[pte.ppn := Free];
            StillDir(r0, R(), d, a, v + 1);
          } else {
            ReleasedNone(r0, r, d, a, v, v + 1);
          }
        }
        v := w;
      }
    }

    /** deallocuvm. */
    method Deallocuvm(d: nat, oldsz: nat, newsz: nat) returns (sz: nat)
      requires Valid() && IsDir(R(), d) && PagesUp(oldsz) <= USERPAGES
      modifies this`free, this`pages, this`own
      ensures Valid() && sz == if newsz < oldsz then newsz else oldsz
      ensures newsz >= oldsz ==> R() == old(R())
      ensures newsz < oldsz ==> Released(old(R()), R(), d, PagesUp(newsz), PagesUp(oldsz))
    {
      if newsz >= oldsz {
        return oldsz;
      }
      Dealloc(d, PagesUp(newsz), PagesUp(oldsz));
      return newsz;
    }

    /** freevm: its user pages, its tables and the directory itself are freed. */
    method FreeVm(d: nat)
      requires Valid() && IsDir(R(), d)
      modifies this`free, this`pages, this`own
      ensures Valid() && Freed(old(R()), R(), d)
    {
      ghost var r0 := R();
      Dealloc(d, 0, USERPAGES);
      ghost var r1 := R();
      StillDir(r0, r1, d, 0, USERPAGES);
      DismantleKeepsInv(r1, d);
      own := Dismantled(own, d, 0);
      FreeTables(d, r1);
      assert FrameOk(r1, d);
      ghost var r2 := R();
      hide Inv, Released, Freed;
      Kfree(d);
      FreedAll(r0, r1, r2, d);
    }

    /** freevm's loop over the directory. */
    method FreeTables(d: nat, ghost r: Ram)
      requires Inv(r) && IsDir(r, d) && Valid() && R() == r.(own := Dismantled(r.own, d, 0))
      modifies this`free, this`pages, this`own
      ensures Valid() && own == Dismantled(r.own, d, NENTRIES) && |pages| == |r.pages|
      ensures forall f :: 0 <= f < |own| && !(r.own[f].Tab? && r.own[f].d == d) ==> pages[f] == r.pages[f]
    {
      assert FrameOk(r, d);
      var i := 0;
      while i < NENTRIES
        invariant 0 <= i <= NENTRIES && Valid() && own == Dismantled(r.own, d, i) && |pages| == |r.pages|
        invariant forall f :: 0 <= f < |own| && !(r.own[f].Tab? && r.own[f].d == d) ==> pages[f] == r.pages[f]
      {
        var pde := pages[d].ptes[i];
        assert DirOk(r, d, i);
        TableAt(r, d, i);
        if pde.p || pde.e {
          Kfree(pde.ppn);
        }
        i := i + 1;
      }
    }

    /** mappages for one page. */
    method MapPage(d: nat, v: nat, ppn: nat, perm: Pte) returns (m: Mapping)
      requires Valid() && IsDir(R(), d) && v < ALLPAGES && Mappable(R(), v, Installed(ppn, perm))
      modifies this`free, this`pages, this`own
      ensures Valid()
      ensures m == Remap <==> Mapped(Flat(old(pages), d, v))
      ensures m == NoMemory <==> !Mapped(Flat(old(pages), d, v)) && |old(free)| < Cost(old(R()), d, v)
      ensures m != Done ==> R() == old(R())
      ensures m == Done ==> MappedOne(old(R()), R(), d, v, Installed(ppn, perm))
    {
      hide Inv, Walked, MappedOne, Flat, EntryIn;
      ghost var r, x := R(), Installed(ppn, perm);
      var ok, t := WalkPgdir(d, v, true);
      if !ok {
        NoTable(r, d, v, v + 1);
        return NoMemory;
      }
      ghost var w := R();
      EntryOf(w, d, v);
      WalkedSame(r, w, d, v);
      var old_ := pages[t].ptes[v % NENTRIES];
      if old_.p || old_.e {
        WalkedMapped(r, d, v);
        return Remap;
      }
      MapsOne(r, w, d, v, x);
      pages := SetEntry(pages, t, v % NENTRIES, if perm.e then perm.(ppn := ppn) else perm.(ppn := ppn, p := true));
      own := Placed(w, d, v, x);
      assert R() == w.(pages := SetLeaf(w, d, v, x), own := Placed(w, d, v, x));
      assert Valid() by {
        MapsOneInv(r, R(), d, v, x);
      }
      return Done;
    }

    /** mappages for the kernel's half: the panic is met exactly when a page is mapped
        already and there are frames for the tables up to it; else it fails exactly when
        there are fewer free frames than tables to be made. */
    method MapPages(d: nat, first: nat, count: nat, ppn: nat, perm: Pte) returns (m: Mapping)
      requires Valid() && IsDir(R(), d) && USERPAGES <= first && first + count <= ALLPAGES
      modifies this`free, this`pages, this`own
      ensures Valid() && IsDir(R(), d) && Added(old(R()), R(), d)
      ensures var u := FirstMapped(old(R()), d, first, first + count);
              m == if |old(free)| < Missing(old(R()), d, first, u) then NoMemory else if u < first + count then Remap else Done
      ensures m == Done ==> FlatRun(old(R()), R(), d, first, first + count, ppn, perm)
      ensures m == Done ==> Paid(old(R()), R(), d, first, first + count, 0)
    {
      hide Inv, Flat, Added, MappedOne, Paid, Missing, FirstMapped;
      ghost var r0, u := R(), FirstMapped(R(), d, first, first + count);
      var v := first;
      AddedNothing(r0, d);
      PaidNothing(r0, d, first);
      while v < first + count
        invariant first <= v <= u
        invariant Valid() && IsDir(R(), d) && Added(r0, R(), d) && FlatRun(r0, R(), d, first, v, ppn, perm)
        invariant Paid(r0, R(), d, first, v, 0)
      {
        ghost var r := R();
        CostIs(r0, r, d, first, v, 0);
        PaidFree(r0, r, d, first, v, 0);
        m := MapPage(d, v, ppn + v - first, perm);
        if v < u {
          MissingGrows(r0, d, first, v + 1, u);
        }
        if m != Done {
          return;
        }
        KernelPageAdded(r, R(), d, v, Installed(ppn + v - first, perm));
        AddedMore(r0, r, R(), d);
        FlatRunOne(r0, r, R(), d, first, v, ppn, perm);
        PaidMore(r0, r, r, R(), d, first, v, Installed(ppn + v - first, perm), 0, 0);
        v := v + 1;
      }
      PaidFree(r0, R(), d, first, v, 0);
      m := Done;
    }

    /** One row of the kernel's map; failing it frees the address space. */
    method MapRow(d: nat, data: nat, k: nat, ghost r0: Ram) returns (ok: bool)
      requires 0x80100 < data < 0x8E000 && k < 4 && Inv(r0) && InRow(r0, R(), d, data, k)
      modifies this`free, this`pages, this`own
      ensures ok ==> InRow(r0, R(), d, data, k + 1)
      ensures !ok ==> Valid() && Restored(r0, R()) && |r0.free| < 65
    {
      hide Inv, Flat, EntryIn, Added, KernelUpTo, FlatRun, Restored, Freed, TablesBelow, Missing, KernelTables;
      ghost var r := R();
      var row := KernelMap(data)[k];
      KernelFree(r, d, data, row.virt);
      var m := MapPages(d, row.virt, row.count, row.phys, KernelPerm(row.w));
      ok := m == Done;
      KernelPaid(r, R(), d, data, k, row.virt + row.count);
      AddedMore(r0, r, R(), d);
      if !ok {
        r := R();
        FreeVm(d);
        Undone(r0, r, R(), d);
        return;
      }
      KernelRow(r, R(), d, data, k, row.virt + row.count);
    }

    /** setupkvm: a new address space with exactly the kernel's mappings, made of
        65 frames; or, exactly when there are fewer, everything back where it was. */
    method SetupKvm(data: nat) returns (ok: bool, d: nat)
      requires Valid() && 0x80100 < data < 0x8E000
      modifies this`free, this`pages, this`own
      ensures Valid()
      ensures ok <==> |old(free)| >= 65
      ensures ok ==> IsDir(R(), d) && !IsDir(old(R()), d) && Added(old(R()), R(), d) && KernelUpTo(R(), d, data, ALLPAGES)
      ensures ok ==> TablesBelow(R(), d, ALLPAGES) && |free| == |old(free)| - 65
      ensures !ok ==> Restored(old(R()), R())
    {
      ghost var r0 := R();
      ok, d := Kalloc();
      if !ok {
        RestoredSame(r0);
        return;
      }
      hide Inv, Flat, EntryIn, Added, KernelUpTo, Restored, TablesBelow, KernelTables;
      NewSpace(r0, d);
      pages := pages[d := NoEntries()];
      own := own[d := Dir];
      KernelNothing(R(), d, data);
      var k := 0;
      while k < 4
        invariant 0 <= k <= 4 && InRow(r0, R(), d, data, k)
      {
        ok := MapRow(d, data, k, r0);
        if !ok {
          return;
        }
        k := k + 1;
      }
      KernelTotal();
    }

    /** A page from kalloc with the given contents. */
    method NewPage(page: Page) returns (ok: bool, f: nat)
      requires Valid()
      modifies this`free, this`pages, this`own
      ensures Valid()
      ensures ok <==> old(free) != []
      ensures !ok ==> R() == old(R())
      ensures ok ==> f == old(free)[0] < |old(own)| == |old(pages)| && R() == Filled(old(R()), page)
    {
      ghost var r := R();
      ok, f := Kalloc();
      if ok {
        FilledKeepsInv(r, page);
        hide Inv;
        pages := pages[f := page];
      }
    }

    /** One round of allocuvm's loop, with its way out when memory has run out. */
    method AllocPage(d: nat, a: nat, v: nat, b: nat, ghost r0: Ram) returns (m: Mapping)
      requires Valid() && IsDir(R(), d) && a <= v < b <= USERPAGES && Inv(r0) && IsDir(r0, d)
      requires Grown(r0, R(), d, a, v, UserPerms(b), ZeroPages(b)) && Paid(r0, R(), d, a, v, v - a)
      modifies this`free, this`pages, this`own
      ensures Valid()
      ensures m == if |old(free)| < 1 + Cost(old(R()), d, v) then NoMemory
                   else if Mapped(Flat(r0.pages, d, v)) then Remap else Done
      ensures m == Done ==> IsDir(R(), d) && Grown(r0, R(), d, a, v + 1, UserPerms(b), ZeroPages(b))
      ensures m == Done ==> Paid(r0, R(), d, a, v + 1, v + 1 - a)
      ensures m == NoMemory ==> Released(old(R()), R(), d, a, b)
    {
      hide Inv, Flat, EntryIn, Grown, Released, MappedOne, Filled, Give, SameDirs, Paid, UserPerms, ZeroPages;
      ghost var r, perms, data := R(), UserPerms(b), ZeroPages(b);
      UserPages(b);
      GrownUnmapped(r0, r, d, a, v, perms, data);
      MappedCost(r, d, v);
      var ok, mem := NewPage(ZeroPage());
      if !ok {
        Dealloc(d, a, b);
        return NoMemory;
      }
      ghost var f := R();
      FilledMappable(r, d, v, ZeroPage());
      FilledTables(r, d, v, ZeroPage());
      m := MapPage(d, v, mem, USERPERM);
      if m == NoMemory {
        Dealloc(d, a, b);
        ReleasedLent(r, f, R(), ZeroPage(), d, a, b);
        Kfree(mem);
      } else if m == Done {
        GrownMore(r0, r, f, R(), d, a, v, perms, data);
        GrownDir(r0, R(), d, a, v + 1, perms, data);
        PaidMore(r0, r, f, R(), d, a, v, Installed(mem, USERPERM), v - a, 1);
      }
    }

    /** allocuvm: pages of zeros from the old size to the new one, present, writable
        and the user's. `panic` says that a page there is mapped already: with memory
        for those before it and a frame more, the source panics. When memory runs out
        at some page `v`, everything mapped in the range is released: exactly the pages
        this call added, if nothing was mapped there before. */
    method Allocuvm(d: nat, oldsz: nat, newsz: nat) returns (sz: nat, panic: bool, ghost v: nat, ghost mid: Ram)
      requires Valid() && IsDir(R(), d)
      modifies this`free, this`pages, this`own
      ensures Valid()
      ensures newsz >= KERNBASE ==> sz == 0 && !panic && R() == old(R())
      ensures newsz < KERNBASE && newsz < oldsz ==> sz == oldsz && !panic && R() == old(R())
      ensures oldsz <= newsz < KERNBASE ==>
                var a, b := PagesUp(oldsz), PagesUp(newsz);
                var m := FirstMapped(old(R()), d, a, b);
                if |old(free)| < Wanted(old(R()), d, a, m) + if m < b then 1 else 0 then
                  && sz == 0 && !panic && a <= v <= m && GrownUpTo(old(R()), mid, d, a, v, b) && Released(mid, R(), d, a, b)
                  && (m == b ==> GaveUp(old(R()), R(), d))
                else if m < b then panic
                else sz == newsz && !panic && GrownBy(old(R()), R(), d, a, b)
    {
      hide Inv, Flat, EntryIn, Grown, GaveUp, Released, UserPerms, ZeroPages, ZeroPage, Paid, Missing, FirstMapped;
      panic, v, mid := false, 0, R();
      if newsz >= KERNBASE {
        return 0, panic, v, mid;
      }
      if newsz < oldsz {
        return oldsz, panic, v, mid;
      }
      ghost var r0 := R();
      var a, b := PagesUp(oldsz), PagesUp(newsz);
      ghost var m := FirstMapped(r0, d, a, b);
      ghost var perms, data := UserPerms(b), ZeroPages(b);
      UserPages(b);
      GrownNothing(r0, d, a, perms, data);
      PaidNothing(r0, d, a);
      var w := a;
      while w < b
        invariant a <= w <= m && Valid() && IsDir(R(), d)
        invariant Grown(r0, R(), d, a, w, perms, data) && Paid(r0, R(), d, a, w, w - a)
      {
        CostIs(r0, R(), d, a, w, w - a);
        PaidFree(r0, R(), d, a, w, w - a);
        v, mid := w, R();
        GrownUnmapped(r0, mid, d, a, w, perms, data);
        MappedCost(mid, d, w);
        var mapping := AllocPage(d, a, w, b, r0);
        if mapping == Remap {
          return 0, true, v, mid;
        }
        if w < m {
          MissingGrows(r0, d, a, w + 1, m);
        }
        if mapping == NoMemory {
          AllocStops(r0, mid, R(), d, a, w, m, b);
          return 0, false, v, mid;
        }
        w := w + 1;
      }
      PaidFree(r0, R(), d, a, b, b - a);
      return newsz, false, v, mid;
    }

    /** One round of copyuvm's loop, with its way out when memory has run out. */
    method CopyPage(d: nat, c: nat, v: nat, ghost r0: Ram, ghost r1: Ram, ghost n: nat, ghost kdata: nat) returns (ok: bool)
      requires Valid() && Copying(r0, r1, d, c, n, kdata) && v < n && IsDir(R(), c)
      requires Grown(r1, R(), c, 0, v, PermsOf(r0, d, n), PagesOf(r0, d, n)) && Paid(r1, R(), c, 0, v, v)
      modifies this`free, this`pages, this`own
      ensures Valid()
      ensures ok <==> |old(free)| >= 1 + Cost(old(R()), c, v)
      ensures ok ==> IsDir(R(), c) && Grown(r1, R(), c, 0, v + 1, PermsOf(r0, d, n), PagesOf(r0, d, n))
      ensures ok ==> Paid(r1, R(), c, 0, v + 1, v + 1)
      ensures !ok ==> Restored(r0, R())
    {
      hide Inv, Flat, EntryIn, Grown, MappedOne, Filled, Give, SameDirs, Freed, Restored, Added, PermsOf, PagesOf, Copying, Paid;
      ghost var r, perms, data := R(), PermsOf(r0, d, n), PagesOf(r0, d, n);
      CopySource(r0, r1, r, d, c, v, n, kdata);
      var _, t := WalkPgdir(d, v, false);
      var pte := pages[t].ptes[v % NENTRIES];
      EntryOf(r, d, v);
      var mem;
      ok, mem := NewPage(pages[pte.ppn]);
      if !ok {
        FreeVm(c);
        GrownUndone(r0, r1, r, r, R(), d, c, v, n, kdata);
        return;
      }
      ghost var m := R();
      FilledMappable(r, c, v, data[v]);
      FilledTables(r, c, v, data[v]);
      var mapping := MapPage(c, v, mem, pte);
      ok := mapping == Done;
      if !ok {
        Kfree(mem);
        LentBack(r, m, data[v]);
        ghost var back := R();
        FreeVm(c);
        GrownUndone(r0, r1, r, back, R(), d, c, v, n, kdata);
        return;
      }
      GrownMore(r1, r, m, R(), c, 0, v, perms, data);
      GrownDir(r1, R(), c, 0, v + 1, perms, data);
      PaidMore(r1, r, m, R(), c, 0, v, Installed(mem, pte), v, 1);
    }

    /** copyuvm: a child with the same pages, flags and bytes in frames of its own,
        the parent untouched; or everything back where it was, exactly when there
        are fewer free frames than the child needs. `panic` says that a page of the
        parent is missing: with memory for the pages before the first such one, the
        source panics there. */
    method Copyuvm(d: nat, sz: nat, kdata: nat) returns (ok: bool, panic: bool, c: nat)
      requires Valid() && IsDir(R(), d) && PagesUp(sz) <= USERPAGES && 0x80100 < kdata < 0x8E000
      modifies this`free, this`pages, this`own
      ensures Valid()
      ensures var n, m := PagesUp(sz), FirstGap(old(R()), d, 0, PagesUp(sz));
              (ok || panic <==> |old(free)| >= ChildFrames(m)) && (ok ==> m == n) && (panic ==> m < n)
      ensures ok ==> Copied(old(R()), R(), d, c, PagesUp(sz), kdata) && |free| == |old(free)| - ChildFrames(PagesUp(sz))
      ensures !ok && !panic ==> Restored(old(R()), R())
    {
      hide Inv, Flat, EntryIn, Grown, Copying, PermsOf, PagesOf, Copied, Restored, Paid, Missing, FirstGap, Added, KernelUpTo, TablesBelow;
      ghost var r0 := R();
      var n := PagesUp(sz);
      ghost var m := FirstGap(r0, d, 0, n);
      panic := false;
      ok, c := SetupKvm(kdata);
      if !ok {
        return;
      }
      ghost var r1 := R();
      CopyStart(r0, r1, d, c, m, kdata);
      var v := 0;
      while v < n
        invariant 0 <= v <= m && Valid() && IsDir(R(), c)
        invariant Grown(r1, R(), c, 0, v, PermsOf(r0, d, m), PagesOf(r0, d, m)) && Paid(r1, R(), c, 0, v, v)
      {
        ParentSame(r0, r1, R(), d, c, m, kdata, v, v);
        PaidFree(r1, R(), c, 0, v, v);
        var pte := Flat(pages, d, v);
        if !pte.p && !pte.e {
          return false, true, c;
        }
        CostIs(r1, R(), c, 0, v, v);
        MissingGrows(r1, c, 0, v + 1, m);
        ok := CopyPage(d, c, v, r0, r1, m, kdata);
        if !ok {
          return;
        }
        v := v + 1;
      }
      CopiedAll(r0, r1, R(), d, c, m, kdata);
      PaidFree(r1, R(), c, 0, m, m);
      ok := true;
    }

    /** Complements every byte of a frame. */
    method FlipPage(f: nat)
      requires f < |pages| && pages[f].Bytes?
      modifies this`pages
      ensures pages == old(pages)[f := Bytes(FlipAll(old(pages)[f].data))]
    {
      ghost var data := pages[f].data;
      var i := 0;
      while i < |pages[f].data|
        invariant f < |pages| && pages == old(pages)[f := pages[f]] && pages[f].Bytes?
        invariant |pages[f].data| == |data| && 0 <= i <= |data|
        invariant forall j :: 0 <= j < |data| ==> pages[f].data[j] == if j < i then Flip(data[j]) else data[j]
        decreases |data| - i
      {
        pages := pages[f := Bytes(pages[f].data[i := Flip(pages[f].data[i])])];
        i := i + 1;
      }
      assert pages[f].data == FlipAll(data);
    }

    /** mencrypt from page `v`: if every page asked for is the user's, the first one
        that is not encrypted yet is encrypted, and that one only: page `w`. */
    method Mencrypt(d: nat, v: nat, len: int) returns (r: Outcome)
      requires Valid() && IsDir(R(), d) && v < ALLPAGES && KernelOnly(R(), d)
      modifies this`pages
      ensures r != Unknown ==> Valid() && PlainKeptAll(old(R()), R()) && R() == Mencrypted(old(R()), d, v, len)
      ensures r == Zero <==> AllFrames(old(R()), d, v, len)
      ensures r != Zero ==> exists u :: v <= u < v + len && u < ALLPAGES && AllFrames(old(R()), d, v, u - v) &&
                              Uva2ka(old(pages), d, u) == if r == Minus then Null else Wild
    {
      hide Inv, Flat, EntryIn, Plain, Mencrypted, Uva2ka, KernelOnly;
      ghost var r0 := R();
      var i := 0;
      while i < len
        invariant 0 <= i && (i == 0 || i <= len) && (i == 0 || v + i <= USERPAGES) && AllFrames(r0, d, v, i) && R() == r0
      {
        var s := v + i;
        var f := Uva2ka(pages, d, s);
        if f.Wild? {
          return Unknown;
        } else if f.Null? {
          MencryptedNot(r0, d, v, len, s);
          return Minus;
        }
        FrameIsUser(r0, d, s);
        i := i + 1;
      }
      EncryptStage(d, v, len);
      return Zero;
    }

    /** The second half of mencrypt: it returns after the first page it encrypts. */
    method EncryptStage(d: nat, v: nat, len: int)
      requires Valid() && IsDir(R(), d) && KernelOnly(R(), d) && AllFrames(R(), d, v, len)
      modifies this`pages
      ensures Valid() && R() == Mencrypted(old(R()), d, v, len) && PlainKeptAll(old(R()), R())
    {
      hide Inv, Flat, EntryIn, SealedAt, Plain, Mencrypted, AllFrames, KernelOnly, PlainKeptAll;
      ghost var r0 := R();
      MencryptedKeeps(r0, d, v, len);
      var i := 0;
      while i < len
        invariant 0 <= i && (i == 0 || i <= len)
        invariant FirstPlain(r0, d, v, v + len) == FirstPlain(r0, d, v + i, v + len) && R() == r0
        decreases len - i
      {
        var s := v + i;
        var pte := Flat(pages, d, s);
        if !pte.e {
          MencryptedAt(r0, d, v, len, s);
          FlipPage(pte.ppn);
          SetSealed(r0, d, s, pages);
          pages := SetEntry(pages, EntryIn(pages, d, s / NENTRIES).ppn, s % NENTRIES, Sealed(pte));
          return;
        }
        i := i + 1;
      }
      MencryptedAt(r0, d, v, len, v + i);
    }

    /** addClock. */
    method AddClock(p: Process, va: nat)
      requires Valid() && Ok(State(R(), p.Q()), p.pgdir) && Tabled(R(), p.pgdir, PageOf(va))
      modifies this`pages, p
      ensures State(R(), p.Q()) == Inserted(old(State(R(), p.Q())), p.pgdir, va)
      ensures Valid() && MovedOn(old(State(R(), p.Q())), State(R(), p.Q()), p.pgdir, va)
    {
      hide Inv, Flat, EntryIn, Unused, Mencrypted, KernelOnly, OnlySealed, Inserted, Plain, Hole, QueueOk, MovedOn;
      var d, head := p.pgdir, p.head;
      ghost var s0 := State(R(), p.Q());
      QueueShape(s0, d);
      InsertedMovesOn(s0, d, va);
      var i := head + CLOCKSIZE;
      while i > head
        invariant head <= i <= head + CLOCKSIZE && s0 == State(R(), p.Q())
        invariant Hole(s0.q, 0) == Hole(s0.q, head + CLOCKSIZE - i)
      {
        HoleAt(s0.q, i);
        if p.clock[i % CLOCKSIZE] == 0 {
          InsertedHole(s0, d, va, i % CLOCKSIZE);
          p.clock := p.clock[i % CLOCKSIZE := Down(va)];
          p.head := (i + 1) % CLOCKSIZE;
          ClearAccessed(d, PageOf(va));
          return;
        }
        i := i - 1;
      }
      HoleNone(s0.q);
      Evict(p, va);
    }

    /** addClock when no slot is empty. */
    method Evict(p: Process, va: nat)
      requires Valid() && Ok(State(R(), p.Q()), p.pgdir) && Hole(p.Q(), 0) == CLOCKSIZE
      modifies this`pages, p
      ensures State(R(), p.Q()) == Inserted(old(State(R(), p.Q())), p.pgdir, va)
      ensures Valid()
    {
      hide Inv, Flat, EntryIn, Unused, Mencrypted, KernelOnly, OnlySealed, Inserted, Plain, Hole, QueueOk;
      var d, head := p.pgdir, p.head;
      ghost var s0 := State(R(), p.Q());
      QueueShape(s0, d);
      InsertedFull(s0, d, va);
      var cur := p.clock[head];
      ghost var c := PageOf(cur);
      ghost var used, m := Flat(pages, d, c).a, Unused(R(), d, c);
      UnusedKeeps(s0.r, d, c);
      KernelStays(s0.r, m, d);
      assert IsDir(m, d) by {
        SealedOwn(s0.r, m, d);
      }
      if !used {
        UnusedAlready(R(), d, c);
      }
      var found := false;
      while !found
        invariant p.pgdir == d && Valid()
        invariant !found ==> cur == s0.q.slots[head] && p.clock == s0.q.slots
        invariant !found && Flat(pages, d, c).a ==> used && R() == s0.r && p.head == head
        invariant !found && !Flat(pages, d, c).a ==> R() == m && p.head == (head + if used then 1 else 0) % CLOCKSIZE
        invariant found ==> State(R(), p.Q()) == Inserted(s0, d, va)
        decreases !found, Flat(pages, d, c).a
      {
        if !Flat(pages, d, PageOf(cur)).a {
          var _ := Mencrypt(d, PageOf(cur), 1);
          p.clock := p.clock[head := Down(va)];
          p.head := p.head + 1;
          p.head := p.head % CLOCKSIZE;
          found := true;
        } else {
          ClearAccessed(d, PageOf(cur));
          p.head := p.head + 1;
          p.head := p.head % CLOCKSIZE;
          cur := p.clock[head];
        }
      }
    }

    /** `*pte & ~PTE_A`. */
    method ClearAccessed(d: nat, v: nat)
      requires Valid() && IsDir(R(), d) && Tabled(R(), d, v)
      modifies this`pages
      ensures R() == Unused(old(R()), d, v) && Valid()
    {
      UnusedKeeps(R(), d, v);
      pages := SetEntry(pages, EntryIn(pages, d, v / NENTRIES).ppn, v % NENTRIES, Flat(pages, d, v).(a := false));
    }

    /** mdecrypt: the page becomes present, and is complemented only if it is the user's
        and its first stored byte is not zero. So an encrypted page reads as before
        exactly when the call succeeds. */
    method Mdecrypt(p: Process, va: nat) returns (r: Outcome)
      requires Valid() && Ok(State(R(), p.Q()), p.pgdir) && PageOf(va) < ALLPAGES
      modifies this`pages, p
      ensures Valid() && State(R(), p.Q()) == Faulted(old(State(R(), p.Q())), p.pgdir, va) && Ok(State(R(), p.Q()), p.pgdir)
      ensures r != Unknown
      ensures Flat(old(pages), p.pgdir, PageOf(va)) == NOPTE ==> R() == old(R()) && p.Q() == old(p.Q())
      ensures Flat(old(pages), p.pgdir, PageOf(va)) != NOPTE ==>
                if va in old(p.clock) then p.Q() == old(p.Q())
                else var m := Inserted(old(State(R(), p.Q())), p.pgdir, va);
                     p.Q() == m.q && MovedOn(old(State(R(), p.Q())), m, p.pgdir, va)
      ensures r == Zero <==> Flat(old(pages), p.pgdir, PageOf(va)) != NOPTE &&
                             Decrypts(Enqueued(old(State(R(), p.Q())), p.pgdir, va).r, p.pgdir, PageOf(va))
      ensures var x := Flat(old(pages), p.pgdir, PageOf(va));
              PageOf(va) < USERPAGES && x.e ==>
                (r == Zero <==> Plain(pages, p.pgdir, PageOf(va)) == Plain(old(pages), p.pgdir, PageOf(va)))
    {
      hide Inv, Flat, EntryIn, Unused, Mencrypted, KernelOnly, OnlySealed, Inserted, Plain, UnsealedAt, MovedOn;
      var d, v := p.pgdir, PageOf(va);
      ghost var s0 := State(R(), p.Q());
      FaultedKeeps(s0, d, va);
      var x := Flat(pages, d, v);
      if x == NOPTE {
        return Minus;
      }
      EnqueuedKeeps(s0, d, va);
      HasEntry(s0.r, d, v);
      InsertedMovesOn(s0, d, va);
      var k := p.InQ(va);
      if k == -1 {
        AddClock(p, va);
      }
      ghost var m := State(R(), p.Q());
      if v < USERPAGES && x.e {
        StaysSealed(s0.r, m.r, d, v);
      }
      SetUnsealed(m.r, d, v);
      x := Flat(pages, d, v);
      pages := SetEntry(pages, EntryIn(pages, d, v / NENTRIES).ppn, v % NENTRIES, x.(e := false, p := true));
      if !x.u || pages[x.ppn].data[0] == 0 {
        return Minus;
      }
      FlipPage(x.ppn);
      return Zero;
    }
  }
}
