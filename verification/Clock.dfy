/** The clock queue (vm.c): the addresses of the pages a process has in the clear,
    and what a page fault does to the queue and to memory. */
module Clock {
  import opened PageMap
  import opened Encryption

  const CLOCKSIZE: nat := 8

  /** proc.clock and proc.head; a slot that holds 0 is empty. */
  datatype Queue = Queue(slots: seq<nat>, head: nat)

  datatype State = State(r: Ram, q: Queue)

  function PageOf(va: nat): nat {
    va / PGSIZE
  }

  /** PGROUNDDOWN. */
  function Down(va: nat): nat {
    PageOf(va) * PGSIZE
  }

  /** There is a table for page `v`. */
  predicate Tabled(r: Ram, d: nat, v: nat) {
    v < ALLPAGES && EntryIn(r.pages, d, v / NENTRIES).p
  }

  ghost predicate QueueOk(r: Ram, d: nat, q: Queue) {
    && |q.slots| == CLOCKSIZE && q.head < CLOCKSIZE
    && forall i :: 0 <= i < CLOCKSIZE ==> q.slots[i] == Down(q.slots[i]) && (q.slots[i] != 0 ==> Tabled(r, d, PageOf(q.slots[i])))
  }

  /** What holds of a process between page faults. */
  ghost predicate Ok(s: State, d: nat) {
    Inv(s.r) && IsDir(s.r, d) && KernelOnly(s.r, d) && QueueOk(s.r, d, s.q)
  }

  /** How far above the head slot `i` is, going round. */
  function Above(q: Queue, i: nat): nat
    requires q.head < CLOCKSIZE && i < CLOCKSIZE
  {
    if i >= q.head then i - q.head else i + CLOCKSIZE - q.head
  }

  /** How far below. */
  function Below(q: Queue, i: nat): nat
    requires q.head < CLOCKSIZE && i < CLOCKSIZE
  {
    if i <= q.head then q.head - i else q.head + CLOCKSIZE - i
  }

  /** The empty slot that the scan of addClock finds from its `k`-th step on, going
      down from the head; CLOCKSIZE if there is none. */
  function Hole(q: Queue, k: nat): (h: nat)
    requires |q.slots| == CLOCKSIZE && q.head < CLOCKSIZE && k <= CLOCKSIZE
    ensures h <= CLOCKSIZE && (h < CLOCKSIZE ==> q.slots[h] == 0)
    decreases CLOCKSIZE - k
  {
    if k == CLOCKSIZE then CLOCKSIZE
    else
      var i := (q.head + CLOCKSIZE - k) % CLOCKSIZE;
      if q.slots[i] == 0 then i else Hole(q, k + 1)
  }

  /** It is the empty slot nearest to the head. */
  lemma {:induction false} HoleIsNearest(q: Queue, k: nat, i: nat)
    requires |q.slots| == CLOCKSIZE && q.head < CLOCKSIZE && k <= CLOCKSIZE && i < CLOCKSIZE
    requires q.slots[i] == 0 && Below(q, i) >= k
    ensures Hole(q, k) < CLOCKSIZE && Below(q, Hole(q, k)) <= Below(q, i)
    decreases CLOCKSIZE - k
  {
    var j := (q.head + CLOCKSIZE - k) % CLOCKSIZE;
    if q.slots[j] != 0 {
      HoleIsNearest(q, k + 1, i);
    }
  }

  /** Clears the accessed bit of page `v`. */
  function Unused(r: Ram, d: nat, v: nat): Ram {
    if Leafy(r, d, v) then r.(pages := SetLeaf(r, d, v, Flat(r.pages, d, v).(a := false))) else r
  }

  /** addClock: an empty slot is filled. If there is none the page in the slot at the
      head is encrypted and its slot reused, whether it was accessed or not; that only
      moves the head by two rather than one. */
  ghost function Inserted(s: State, d: nat, va: nat): State
    requires |s.q.slots| == CLOCKSIZE && s.q.head < CLOCKSIZE
  {
    var q, h := s.q, Hole(s.q, 0);
    if h < CLOCKSIZE then
      State(Unused(s.r, d, PageOf(va)), Queue(q.slots[h := Down(va)], (h + 1) % CLOCKSIZE))
    else
      var c := PageOf(q.slots[q.head]);
      State(Mencrypted(Unused(s.r, d, c), d, c, 1),
            Queue(q.slots[q.head := Down(va)], (q.head + if Flat(s.r.pages, d, c).a then 2 else 1) % CLOCKSIZE))
  }

  /** The scan of addClock at slot `i`, counted down from CLOCKSIZE above the head. */
  lemma HoleAt(q: Queue, i: nat)
    requires |q.slots| == CLOCKSIZE && q.head < i <= q.head + CLOCKSIZE && q.head < CLOCKSIZE
    ensures var k := q.head + CLOCKSIZE - i;
            Hole(q, k) == if q.slots[i % CLOCKSIZE] == 0 then i % CLOCKSIZE else Hole(q, k + 1)
  {
  }

  lemma HoleNone(q: Queue)
    requires |q.slots| == CLOCKSIZE && q.head < CLOCKSIZE && Hole(q, 0) == Hole(q, CLOCKSIZE)
    ensures Hole(q, 0) == CLOCKSIZE
  {
  }

  lemma QueueShape(s: State, d: nat)
    requires Ok(s, d)
    ensures |s.q.slots| == CLOCKSIZE && s.q.head < CLOCKSIZE
    ensures s.q.slots[s.q.head] != 0 ==> Tabled(s.r, d, PageOf(s.q.slots[s.q.head]))
  {
  }

  lemma SealedOwn(r: Ram, r': Ram, d: nat)
    requires OnlySealed(r, r', d)
    ensures r'.own == r.own
  {
  }

  lemma InsertedHole(s: State, d: nat, va: nat, h: nat)
    requires |s.q.slots| == CLOCKSIZE && s.q.head < CLOCKSIZE && h < CLOCKSIZE && Hole(s.q, 0) == h
    ensures Inserted(s, d, va) == State(Unused(s.r, d, PageOf(va)), Queue(s.q.slots[h := Down(va)], (h + 1) % CLOCKSIZE))
  {
    hide Unused, Mencrypted, Flat, Down, PageOf, Hole;
  }

  lemma InsertedFull(s: State, d: nat, va: nat)
    requires |s.q.slots| == CLOCKSIZE && s.q.head < CLOCKSIZE && Hole(s.q, 0) == CLOCKSIZE
    ensures var c := PageOf(s.q.slots[s.q.head]);
            && s.q.slots[s.q.head] != 0
            && Inserted(s, d, va) ==
               State(Mencrypted(Unused(s.r, d, c), d, c, 1),
                     Queue(s.q.slots[s.q.head := Down(va)], (s.q.head + if Flat(s.r.pages, d, c).a then 2 else 1) % CLOCKSIZE))
  {
    hide Unused, Mencrypted, Flat, Down, PageOf, Hole;
    HoleAt(s.q, s.q.head + CLOCKSIZE);
  }

  lemma UnusedAlready(r: Ram, d: nat, v: nat)
    requires !Flat(r.pages, d, v).a
    ensures Unused(r, d, v) == r
  {
    if Leafy(r, d, v) {
      var t := EntryIn(r.pages, d, v / NENTRIES).ppn;
      assert r.pages[t].ptes[v % NENTRIES := Flat(r.pages, d, v)] == r.pages[t].ptes;
    }
  }

  /** What mdecrypt does to the queue first. */
  ghost function Enqueued(s: State, d: nat, va: nat): State
    requires |s.q.slots| == CLOCKSIZE && s.q.head < CLOCKSIZE
  {
    if va in s.q.slots then s else Inserted(s, d, va)
  }

  /** mdecrypt. */
  ghost function Faulted(s: State, d: nat, va: nat): State
    requires |s.q.slots| == CLOCKSIZE && s.q.head < CLOCKSIZE
  {
    if Flat(s.r.pages, d, PageOf(va)) == NOPTE then s
    else
      var m := Enqueued(s, d, va);
      m.(r := UnsealedAt(m.r, d, PageOf(va)))
  }

  // ------------------------------------------------------------ what is kept

  /** Entries may lose the accessed bit and pages may be encrypted; nothing else. */
  ghost predicate OnlySealed(r: Ram, r': Ram, d: nat) {
    && r'.lo == r.lo && r'.free == r.free && r'.own == r.own && PlainKeptAll(r, r')
    && (forall i :: 0 <= i < NENTRIES ==> EntryIn(r'.pages, d, i) == EntryIn(r.pages, d, i))
    && (forall v :: 0 <= v < ALLPAGES ==> SealedOrSame(Flat(r.pages, d, v), Flat(r'.pages, d, v)))
  }

  predicate SealedOrSame(x: Pte, y: Pte) {
    y == x || y == x.(a := false) || (x.p && x.u && y == Sealed(x))
  }

  lemma OnlySealedTwice(r: Ram, m: Ram, r': Ram, d: nat)
    requires Inv(r) && IsDir(r, d) && OnlySealed(r, m, d) && OnlySealed(m, r', d)
    requires Inv(m)
    ensures OnlySealed(r, r', d)
  {
    hide Inv, Flat, EntryIn, Plain;
    forall v | 0 <= v < ALLPAGES
      ensures SealedOrSame(Flat(r.pages, d, v), Flat(r'.pages, d, v))
    {
      assert SealedOrSame(Flat(r.pages, d, v), Flat(m.pages, d, v));
      assert SealedOrSame(Flat(m.pages, d, v), Flat(r'.pages, d, v));
    }
    assert forall e :: IsDir(r, e) ==> IsDir(m, e);
  }

  lemma UnusedKeeps(r: Ram, d: nat, v: nat)
    requires Inv(r) && IsDir(r, d) && Tabled(r, d, v)
    ensures Leafy(r, d, v) && Inv(Unused(r, d, v)) && OnlySealed(r, Unused(r, d, v), d)
    ensures Flat(Unused(r, d, v).pages, d, v) == Flat(r.pages, d, v).(a := false)
    ensures forall u :: 0 <= u < ALLPAGES && u != v ==> Flat(Unused(r, d, v).pages, d, u) == Flat(r.pages, d, u)
  {
    var x := Flat(r.pages, d, v).(a := false);
    SetLeafMaps(r, d, v, x);
    HasTable(r, d, v);
    var r' := Unused(r, d, v);
    assert Inv(r') by {
      UnusedInv(r, d, v);
    }
    forall e, u | IsDir(r, e) && 0 <= u < USERPAGES
      ensures Plain(r'.pages, e, u) == Plain(r.pages, e, u)
    {
      LeafPlain(r, d, v, x, e, u);
    }
  }

  lemma UnusedInv(r: Ram, d: nat, v: nat)
    requires Inv(r) && IsDir(r, d) && Tabled(r, d, v)
    ensures Inv(Unused(r, d, v))
  {
    var x := Flat(r.pages, d, v).(a := false);
    HasTable(r, d, v);
    if v >= USERPAGES {
      MapKernelKeepsInv(r, d, v, x);
    } else if Mapped(x) {
      assert LeafOk(r, d, v);
      ReflagKeepsInv(r, d, v, x);
    } else {
      assert LeafOk(r, d, v);
      var t := EntryIn(r.pages, d, v / NENTRIES).ppn;
      assert r.pages[t].ptes[v % NENTRIES := x] == r.pages[t].ptes;
      assert Unused(r, d, v).pages == r.pages;
    }
  }

  /** Changing one entry in a way that does not matter to its page's plaintext. */
  lemma LeafPlain(r: Ram, d: nat, v: nat, x: Pte, e: nat, u: nat)
    requires Inv(r) && IsDir(r, d) && Tabled(r, d, v) && Leafy(r, d, v) && IsDir(r, e) && u < USERPAGES
    requires var y := Flat(r.pages, d, v); (e == d && u == v) ==> x.ppn == y.ppn && x.e == y.e && x.p == y.p
    ensures Plain(SetLeaf(r, d, v, x), e, u) == Plain(r.pages, e, u)
  {
    SetLeafMaps(r, d, v, x);
    HasTable(r, d, v);
    assert LeafOk(r, e, u);
    var f := Flat(r.pages, e, u).ppn;
    if Mapped(Flat(r.pages, e, u)) {
      assert FrameOk(r, f);
    }
  }

  lemma EvictKeeps(r: Ram, d: nat, v: nat)
    requires Inv(r) && IsDir(r, d) && KernelOnly(r, d) && v < ALLPAGES
    ensures Inv(Mencrypted(r, d, v, 1)) && OnlySealed(r, Mencrypted(r, d, v, 1), d)
    ensures var x := Flat(Mencrypted(r, d, v, 1).pages, d, v); !x.p || !x.u || v >= USERPAGES
  {
    MencryptedKeeps(r, d, v, 1);
    SealedOnly(r, d, v);
    hide Inv, Flat, EntryIn, SealedAt, Plain, PlainKeptAll;
    assert FirstPlain(r, d, v, v + 1) == if Flat(r.pages, d, v).e then v + 1 else v;
    if v < USERPAGES && Flat(r.pages, d, v).p && Flat(r.pages, d, v).u {
      LeafOnce(r, d, v);
      assert AllFrames(r, d, v, 1);
    }
  }

  lemma LeafOnce(r: Ram, d: nat, v: nat)
    requires Inv(r) && IsDir(r, d) && v < USERPAGES && Flat(r.pages, d, v).p && Flat(r.pages, d, v).u
    ensures !Flat(r.pages, d, v).e && Uva2ka(r.pages, d, v).Frame?
  {
    assert LeafOk(r, d, v);
  }

  /** Sealing a page changes one entry. */
  lemma SealedOnly(r: Ram, d: nat, v: nat)
    requires Inv(r) && IsDir(r, d)
    ensures var r' := SealedAt(r, d, v);
            && r'.lo == r.lo && r'.free == r.free && r'.own == r.own
            && (v < USERPAGES && Flat(r.pages, d, v).p ==>
                  && (forall i :: 0 <= i < NENTRIES ==> EntryIn(r'.pages, d, i) == EntryIn(r.pages, d, i))
                  && (forall u :: 0 <= u < ALLPAGES && u != v ==> Flat(r'.pages, d, u) == Flat(r.pages, d, u)))
  {
    if v < USERPAGES && Flat(r.pages, d, v).p {
      var x := Flat(r.pages, d, v);
      MappedIsBacked(r, d, v);
      assert LeafOk(r, d, v);
      RecodedMaps(r, d, v, Sealed(x), FlipAll(r.pages[x.ppn].data));
    }
  }

  lemma InsertedKeeps(s: State, d: nat, va: nat)
    requires Ok(s, d) && Tabled(s.r, d, PageOf(va))
    ensures Ok(Inserted(s, d, va), d) && OnlySealed(s.r, Inserted(s, d, va).r, d)
    ensures Down(va) in Inserted(s, d, va).q.slots
  {
    hide Inv, Flat, EntryIn, Unused, Mencrypted, KernelOnly, Hole;
    var q, h := s.q, Hole(s.q, 0);
    var t := Inserted(s, d, va);
    if h < CLOCKSIZE {
      UnusedKeeps(s.r, d, PageOf(va));
      assert t.q.slots[h] == Down(va);
      OnlySealedOk(s, t, d, h, va);
    } else {
      var c := PageOf(q.slots[q.head]);
      HoleAt(q, q.head + CLOCKSIZE);
      UnusedKeeps(s.r, d, c);
      var m := Unused(s.r, d, c);
      KernelStays(s.r, m, d);
      EvictKeeps(m, d, c);
      OnlySealedTwice(s.r, m, t.r, d);
      assert t.q.slots[q.head] == Down(va);
      OnlySealedOk(s, t, d, q.head, va);
    }
  }

  lemma KernelStays(r: Ram, r': Ram, d: nat)
    requires KernelOnly(r, d) && OnlySealed(r, r', d)
    ensures KernelOnly(r', d)
  {
    hide Flat;
    forall v | USERPAGES <= v < ALLPAGES
      ensures KernelPage(Flat(r'.pages, d, v))
    {
      assert SealedOrSame(Flat(r.pages, d, v), Flat(r'.pages, d, v));
    }
  }

  lemma OnlySealedOk(s: State, t: State, d: nat, h: nat, va: nat)
    requires Ok(s, d) && OnlySealed(s.r, t.r, d) && Inv(t.r) && Tabled(s.r, d, PageOf(va))
    requires h < CLOCKSIZE && t.q.slots == s.q.slots[h := Down(va)] && t.q.head < CLOCKSIZE
    ensures Ok(t, d)
  {
    KernelStays(s.r, t.r, d);
    hide Inv, Flat, EntryIn;
    forall i | 0 <= i < CLOCKSIZE
      ensures t.q.slots[i] == Down(t.q.slots[i]) && (t.q.slots[i] != 0 ==> Tabled(t.r, d, PageOf(t.q.slots[i])))
    {
      if i == h {
        assert PageOf(Down(va)) == PageOf(va);
      }
    }
  }

  // ------------------------------------------------------------ the working set

  /** The pages a process has in the clear. */
  ghost function Readable(s: State, d: nat): set<nat> {
    set v: nat | 0 <= v < USERPAGES && Flat(s.r.pages, d, v).p && Flat(s.r.pages, d, v).u
  }

  ghost function Queued(s: State): set<nat> {
    set a | a in s.q.slots && a != 0 :: PageOf(a)
  }

  /** In the clear but not in the queue, so that nothing will encrypt them again. */
  ghost function Loose(s: State, d: nat): set<nat> {
    Readable(s, d) - Queued(s)
  }

  /** addClock leaves no page in the clear that leaves the queue. */
  lemma InsertedLoose(s: State, d: nat, va: nat)
    requires Ok(s, d) && Tabled(s.r, d, PageOf(va))
    ensures Loose(Inserted(s, d, va), d) <= Loose(s, d)
  {
    var t := Inserted(s, d, va);
    InsertedKeeps(s, d, va);
    assert SlotLost(s, t, d) by {
      EvictedSealed(s, d, va);
    }
    hide Inv, Flat, Inserted, Ok;
    forall v | v in Loose(t, d)
      ensures v in Loose(s, d)
    {
      assert SealedOrSame(Flat(s.r.pages, d, v), Flat(t.r.pages, d, v));
    }
  }

  /** A page whose address leaves the queue is not in the clear. */
  ghost predicate SlotLost(s: State, t: State, d: nat) {
    forall v :: v in Queued(s) && v !in Queued(t) ==> v !in Readable(t, d)
  }

  lemma EvictedSealed(s: State, d: nat, va: nat)
    requires Ok(s, d) && Tabled(s.r, d, PageOf(va))
    ensures SlotLost(s, Inserted(s, d, va), d)
  {
    hide Inv, Flat, EntryIn, Unused, Mencrypted, KernelOnly, OnlySealed, Hole;
    var q, h := s.q, Hole(s.q, 0);
    var t := Inserted(s, d, va);
    if h < CLOCKSIZE {
      QueueGrows(q.slots, t.q.slots, h, Down(va));
    } else {
      var c := PageOf(q.slots[q.head]);
      HoleAt(q, q.head + CLOCKSIZE);
      UnusedKeeps(s.r, d, c);
      KernelStays(s.r, Unused(s.r, d, c), d);
      EvictKeeps(Unused(s.r, d, c), d, c);
      QueueGrows(q.slots, t.q.slots, q.head, Down(va));
    }
  }

  /** addClock encrypts the page at the head if the queue is full, and no other page,
      accessed or not. */
  lemma InsertedReadable(s: State, d: nat, va: nat)
    requires Ok(s, d) && Tabled(s.r, d, PageOf(va))
    ensures Readable(Inserted(s, d, va), d) ==
            Readable(s, d) - if Hole(s.q, 0) == CLOCKSIZE then {PageOf(s.q.slots[s.q.head])} else {}
  {
    hide Inv, Flat, EntryIn, Unused, Mencrypted, KernelOnly, OnlySealed, Hole, QueueOk, Inserted;
    QueueShape(s, d);
    if Hole(s.q, 0) < CLOCKSIZE {
      InsertedHole(s, d, va, Hole(s.q, 0));
      UnusedReadable(s, d, PageOf(va));
    } else {
      var c := PageOf(s.q.slots[s.q.head]);
      InsertedFull(s, d, va);
      UnusedReadable(s, d, c);
      UnusedKeeps(s.r, d, c);
      KernelStays(s.r, Unused(s.r, d, c), d);
      SealedOwn(s.r, Unused(s.r, d, c), d);
      EvictReadable(s.(r := Unused(s.r, d, c)), d, c);
    }
  }

  lemma UnusedReadable(s: State, d: nat, v: nat)
    requires Inv(s.r) && IsDir(s.r, d) && Tabled(s.r, d, v)
    ensures Readable(s.(r := Unused(s.r, d, v)), d) == Readable(s, d)
  {
    hide Inv, Flat, EntryIn, Unused, OnlySealed;
    UnusedKeeps(s.r, d, v);
  }

  lemma EvictReadable(s: State, d: nat, v: nat)
    requires Inv(s.r) && IsDir(s.r, d) && KernelOnly(s.r, d) && v < ALLPAGES
    ensures Readable(s.(r := Mencrypted(s.r, d, v, 1)), d) == Readable(s, d) - {v}
  {
    hide Inv, Flat, EntryIn, SealedAt, Plain, PlainKeptAll, OnlySealed;
    MencryptedKeeps(s.r, d, v, 1);
    SealedOnly(s.r, d, v);
    EvictKeeps(s.r, d, v);
    assert FirstPlain(s.r, d, v, v + 1) == if Flat(s.r.pages, d, v).e then v + 1 else v;
  }

  /** How the queue moves on: the empty slot nearest below the head is filled and the
      head goes behind it; or, with no slot empty, the one at the head, and the head goes
      on by one, or by two if that page had been accessed. The page in question is not
      accessed any more. */
  ghost predicate MovedOn(s: State, t: State, d: nat, va: nat)
    requires |s.q.slots| == CLOCKSIZE && s.q.head < CLOCKSIZE
  {
    var q := s.q;
    if 0 in q.slots then
      && (exists k :: 0 <= k < CLOCKSIZE && q.slots[k] == 0 && t.q == Queue(q.slots[k := Down(va)], (k + 1) % CLOCKSIZE)
                      && forall i :: 0 <= i < CLOCKSIZE && q.slots[i] == 0 ==> Below(q, k) <= Below(q, i))
      && !Flat(t.r.pages, d, PageOf(va)).a
    else
      && t.q == Queue(q.slots[q.head := Down(va)], (q.head + if Accessed(s, d, q.head) then 2 else 1) % CLOCKSIZE)
      && !Flat(t.r.pages, d, PageOf(q.slots[q.head])).a
  }

  lemma InsertedMovesOn(s: State, d: nat, va: nat)
    requires Ok(s, d) && Tabled(s.r, d, PageOf(va))
    ensures MovedOn(s, Inserted(s, d, va), d, va)
  {
    hide Inv, Flat, EntryIn, Unused, Mencrypted, KernelOnly, OnlySealed, Hole, QueueOk, Inserted, Below;
    QueueShape(s, d);
    HoleIff(s.q);
    var h := Hole(s.q, 0);
    if h < CLOCKSIZE {
      InsertedHole(s, d, va, h);
      UnusedKeeps(s.r, d, PageOf(va));
      forall i | 0 <= i < CLOCKSIZE && s.q.slots[i] == 0
        ensures Below(s.q, h) <= Below(s.q, i)
      {
        HoleIsNearest(s.q, 0, i);
      }
    } else {
      var c := PageOf(s.q.slots[s.q.head]);
      InsertedFull(s, d, va);
      UnusedKeeps(s.r, d, c);
      KernelStays(s.r, Unused(s.r, d, c), d);
      SealedOwn(s.r, Unused(s.r, d, c), d);
      EvictKeeps(Unused(s.r, d, c), d, c);
      NotAccessed(Unused(s.r, d, c), Mencrypted(Unused(s.r, d, c), d, c, 1), d, c);
    }
  }

  lemma NotAccessed(r: Ram, r': Ram, d: nat, v: nat)
    requires OnlySealed(r, r', d) && v < ALLPAGES && !Flat(r.pages, d, v).a
    ensures !Flat(r'.pages, d, v).a
  {
    assert SealedOrSame(Flat(r.pages, d, v), Flat(r'.pages, d, v));
  }

  lemma HoleIff(q: Queue)
    requires |q.slots| == CLOCKSIZE && q.head < CLOCKSIZE
    ensures Hole(q, 0) < CLOCKSIZE <==> 0 in q.slots
  {
    if i :| 0 <= i < CLOCKSIZE && q.slots[i] == 0 {
      HoleIsNearest(q, 0, i);
    }
  }

  // ---------------------------------------------------------- second chance

  ghost predicate Accessed(s: State, d: nat, i: nat)
    requires i < |s.q.slots|
  {
    Flat(s.r.pages, d, PageOf(s.q.slots[i])).a
  }

  /** The slot that second chance would choose: from the head on, the first whose page
      has not been accessed; the head's if all have. */
  ghost function Chosen(s: State, d: nat, k: nat): (c: nat)
    requires |s.q.slots| == CLOCKSIZE && s.q.head < CLOCKSIZE && k <= CLOCKSIZE
    ensures c < CLOCKSIZE && (Accessed(s, d, c) ==> c == s.q.head)
    decreases CLOCKSIZE - k
  {
    var i := (s.q.head + k) % CLOCKSIZE;
    if k == CLOCKSIZE then s.q.head
    else if !Accessed(s, d, i) then i
    else Chosen(s, d, k + 1)
  }

  lemma {:induction false} ChosenIsFirst(s: State, d: nat, k: nat, i: nat)
    requires |s.q.slots| == CLOCKSIZE && s.q.head < CLOCKSIZE && k <= CLOCKSIZE && i < CLOCKSIZE
    requires !Accessed(s, d, i) && Above(s.q, i) >= k
    ensures !Accessed(s, d, Chosen(s, d, k)) && Above(s.q, Chosen(s, d, k)) <= Above(s.q, i)
    decreases CLOCKSIZE - k
  {
    hide Accessed;
    var j := (s.q.head + k) % CLOCKSIZE;
    if Accessed(s, d, j) {
      ChosenIsFirst(s, d, k + 1, i);
    }
  }

  /** addClock is second chance exactly when the page at the head has not been
      accessed, or every page in the queue has. */
  lemma SecondChanceExactly(s: State, d: nat, va: nat)
    requires Ok(s, d) && Tabled(s.r, d, PageOf(va)) && Hole(s.q, 0) == CLOCKSIZE
    ensures var due := PageOf(s.q.slots[Chosen(s, d, 0)]);
            var lucky := !Accessed(s, d, s.q.head) || forall i :: 0 <= i < CLOCKSIZE ==> Accessed(s, d, i);
            && (PageOf(s.q.slots[s.q.head]) == due <==> lucky)
            && (PageOf(s.q.slots[s.q.head]) in Readable(s, d) ==>
                  (Readable(Inserted(s, d, va), d) == Readable(s, d) - {due} <==> lucky))
  {
    hide Inv, Flat, EntryIn, KernelOnly, Hole, Inserted, Readable;
    QueueShape(s, d);
    InsertedReadable(s, d, va);
    if !Accessed(s, d, s.q.head) {
      ChosenIsFirst(s, d, 0, s.q.head);
    } else if i :| 0 <= i < CLOCKSIZE && !Accessed(s, d, i) {
      ChosenIsFirst(s, d, 0, i);
    }
  }

  lemma QueueGrows(a: seq<nat>, b: seq<nat>, h: nat, x: nat)
    requires h < |a| && b == a[h := x]
    ensures forall y :: y in a && y != a[h] ==> y in b
  {
    forall y | y in a && y != a[h]
      ensures y in b
    {
      var i :| 0 <= i < |a| && a[i] == y;
      assert b[i] == y;
    }
  }

  // ------------------------------------------------------------- page faults

  /** The rest of mdecrypt changes page `v` only. */
  lemma UnsealKeeps(s: State, d: nat, v: nat)
    requires Ok(s, d) && v < ALLPAGES && Flat(s.r.pages, d, v) != NOPTE
    ensures var t := s.(r := UnsealedAt(s.r, d, v));
            && Ok(t, d) && OthersKept(s.r, t.r, d, v) && t.r.own == s.r.own
            && Flat(t.r.pages, d, v) == Flat(s.r.pages, d, v).(e := false, p := true)
            && (forall u :: 0 <= u < ALLPAGES && u != v ==> Flat(t.r.pages, d, u) == Flat(s.r.pages, d, u))
  {
    var t := s.(r := UnsealedAt(s.r, d, v));
    if v < USERPAGES {
      LeafMapped(s.r, d, v);
      Unseals(s.r, d, v);
    } else {
      KernelUnseal(s.r, d, v);
    }
    hide Inv, Flat, EntryIn, OthersKept, UnsealedAt;
    assert t.r.own == s.r.own by {
      UnsealOwn(s.r, d, v);
    }
    assert forall i :: 0 <= i < CLOCKSIZE ==> t.q.slots[i] == s.q.slots[i];
  }

  lemma UnsealOwn(r: Ram, d: nat, v: nat)
    ensures UnsealedAt(r, d, v).own == r.own
  {
  }

  lemma LeafMapped(r: Ram, d: nat, v: nat)
    requires Inv(r) && IsDir(r, d) && v < USERPAGES && Flat(r.pages, d, v) != NOPTE
    ensures Mapped(Flat(r.pages, d, v))
  {
    assert LeafOk(r, d, v);
  }

  lemma KernelUnseal(r: Ram, d: nat, v: nat)
    requires Inv(r) && IsDir(r, d) && KernelOnly(r, d) && USERPAGES <= v < ALLPAGES && Flat(r.pages, d, v) != NOPTE
    ensures var r' := UnsealedAt(r, d, v);
            && Inv(r') && OthersKept(r, r', d, v)
            && Flat(r'.pages, d, v) == Flat(r.pages, d, v).(e := false, p := true)
            && (forall i :: 0 <= i < NENTRIES ==> EntryIn(r'.pages, d, i) == EntryIn(r.pages, d, i))
            && (forall u :: 0 <= u < ALLPAGES && u != v ==> Flat(r'.pages, d, u) == Flat(r.pages, d, u))
  {
    var x := Flat(r.pages, d, v).(e := false, p := true);
    HasTable(r, d, v);
    MapKernelKeepsInv(r, d, v, x);
    SetLeafMaps(r, d, v, x);
    var r' := UnsealedAt(r, d, v);
    assert r' == r.(pages := SetLeaf(r, d, v, x));
    hide Inv, Flat, EntryIn, UnsealedAt;
    forall e, u | IsDir(r, e) && 0 <= u < USERPAGES && (e != d || u != v)
      ensures Flat(r'.pages, e, u) == Flat(r.pages, e, u) && Plain(r'.pages, e, u) == Plain(r.pages, e, u)
    {
      LeafPlain(r, d, v, x, e, u);
    }
  }

  lemma HasEntry(r: Ram, d: nat, v: nat)
    requires v < ALLPAGES && Flat(r.pages, d, v) != NOPTE
    ensures Tabled(r, d, v)
  {
  }

  lemma OnlySealedNothing(r: Ram, d: nat)
    ensures OnlySealed(r, r, d)
  {
    hide Flat, EntryIn, Plain;
  }

  lemma SealedKeepsEntry(r: Ram, r': Ram, d: nat, v: nat)
    requires Inv(r) && IsDir(r, d) && KernelOnly(r, d)
    requires OnlySealed(r, r', d) && v < ALLPAGES && Flat(r.pages, d, v) != NOPTE
    ensures Flat(r'.pages, d, v) != NOPTE
  {
    assert LeafOk(r, d, v);
    assert SealedOrSame(Flat(r.pages, d, v), Flat(r'.pages, d, v));
  }

  lemma EnqueuedKeeps(s: State, d: nat, va: nat)
    requires Ok(s, d) && PageOf(va) < ALLPAGES && Flat(s.r.pages, d, PageOf(va)) != NOPTE
    ensures var m := Enqueued(s, d, va);
            && Ok(m, d) && OnlySealed(s.r, m.r, d) && Flat(m.r.pages, d, PageOf(va)) != NOPTE
            && Loose(m, d) <= Loose(s, d) && (PageOf(va) != 0 ==> PageOf(va) in Queued(m))
  {
    hide Inv, Flat, EntryIn, Inserted, OnlySealed, KernelOnly, Readable;
    var m, v := Enqueued(s, d, va), PageOf(va);
    HasEntry(s.r, d, v);
    if va !in s.q.slots {
      InsertedKeeps(s, d, va);
      InsertedLoose(s, d, va);
      assert PageOf(Down(va)) == v;
      SealedKeepsEntry(s.r, m.r, d, v);
    } else {
      OnlySealedNothing(s.r, d);
    }
  }

  /** An encrypted page is not touched before mdecrypt gets to it. */
  lemma StaysSealed(r: Ram, m: Ram, d: nat, v: nat)
    requires Inv(r) && Inv(m) && IsDir(r, d) && OnlySealed(r, m, d) && v < USERPAGES && Flat(r.pages, d, v).e
    ensures Flat(m.pages, d, v).e && (Decrypts(m, d, v) <==> Decrypts(r, d, v))
  {
    hide Flat, EntryIn, Inv;
    var x, y := Flat(r.pages, d, v), Flat(m.pages, d, v);
    assert SealedOrSame(x, y);
    MappedIsBacked(r, d, v);
    MappedIsBacked(m, d, v);
    assert Plain(m.pages, d, v) == Plain(r.pages, d, v);
    FlipTwice(r.pages[x.ppn].data);
    FlipTwice(m.pages[y.ppn].data);
  }

  /** A page fault keeps the plaintext of every other page. That of an encrypted page
      is kept if and only if the page is the user's and its first stored byte is not
      zero. */
  lemma FaultedKeeps(s: State, d: nat, va: nat)
    requires Ok(s, d) && PageOf(va) < ALLPAGES
    ensures var t, v := Faulted(s, d, va), PageOf(va);
            && Ok(t, d) && t.r.own == s.r.own
            && (forall e, u :: IsDir(s.r, e) && 0 <= u < USERPAGES && (e != d || u != v) ==>
                  Plain(t.r.pages, e, u) == Plain(s.r.pages, e, u))
            && (v < USERPAGES && Flat(s.r.pages, d, v).e ==>
                  (Plain(t.r.pages, d, v) == Plain(s.r.pages, d, v) <==> Decrypts(s.r, d, v)))
  {
    var t, v := Faulted(s, d, va), PageOf(va);
    if Flat(s.r.pages, d, v) != NOPTE {
      var m := Enqueued(s, d, va);
      EnqueuedKeeps(s, d, va);
      UnsealKeeps(m, d, v);
      if v < USERPAGES && Flat(s.r.pages, d, v).e {
        LeafMapped(m.r, d, v);
        Unseals(m.r, d, v);
        StaysSealed(s.r, m.r, d, v);
      }
      hide Inv, Flat, EntryIn, Plain, Enqueued, UnsealedAt, Decrypts;
      assert forall e :: IsDir(s.r, e) ==> IsDir(m.r, e);
    }
  }

  /** A fault on a page that the program may use leaves no more pages in the clear
      outside the queue if and only if it was not page 0, or page 0 was one of them:
      the address of page 0 reads as an empty slot. */
  lemma FaultedLoose(s: State, d: nat, va: nat)
    requires Ok(s, d) && PageOf(va) < ALLPAGES
    ensures Loose(Faulted(s, d, va), d) <= Loose(s, d) + (if PageOf(va) == 0 then {0} else {})
    ensures PageOf(va) < USERPAGES && Flat(s.r.pages, d, PageOf(va)).u ==>
              (Loose(Faulted(s, d, va), d) <= Loose(s, d) <==> PageOf(va) != 0 || 0 in Loose(s, d))
  {
    var t, v := Faulted(s, d, va), PageOf(va);
    hide Inv, Flat, EntryIn, Enqueued, UnsealedAt, OnlySealed;
    if Flat(s.r.pages, d, v) != NOPTE {
      var m := Enqueued(s, d, va);
      EnqueuedKeeps(s, d, va);
      UnsealKeeps(m, d, v);
      SealedKeepsUser(s.r, m.r, d, v);
      forall u | u in Loose(t, d) && u != v
        ensures u in Loose(m, d)
      {
      }
    }
  }

  /** A page fault puts its own page in the clear, and no other. */
  lemma FaultedReadable(s: State, d: nat, va: nat)
    requires Ok(s, d) && PageOf(va) < ALLPAGES && Flat(s.r.pages, d, PageOf(va)) != NOPTE
    ensures Readable(Faulted(s, d, va), d) ==
            Readable(Enqueued(s, d, va), d) + if PageOf(va) < USERPAGES && Flat(s.r.pages, d, PageOf(va)).u then {PageOf(va)} else {}
  {
    hide Inv, Flat, EntryIn, Enqueued, UnsealedAt, OnlySealed;
    EnqueuedKeeps(s, d, va);
    UnsealKeeps(Enqueued(s, d, va), d, PageOf(va));
    SealedKeepsUser(s.r, Enqueued(s, d, va).r, d, PageOf(va));
  }

  lemma SealedKeepsUser(r: Ram, r': Ram, d: nat, v: nat)
    requires OnlySealed(r, r', d) && v < ALLPAGES
    ensures Flat(r'.pages, d, v).u == Flat(r.pages, d, v).u
  {
    assert SealedOrSame(Flat(r.pages, d, v), Flat(r'.pages, d, v));
  }

  /** The page is encrypted when mdecrypt gets to it: it was before, or it was in the
      slot that the fault on it takes over. */
  ghost predicate SealedByThen(s: State, d: nat, va: nat)
    requires |s.q.slots| == CLOCKSIZE && s.q.head < CLOCKSIZE
  {
    var x := Flat(s.r.pages, d, PageOf(va));
    x.e || (x.p && x.u && va !in s.q.slots && Hole(s.q, 0) == CLOCKSIZE && PageOf(s.q.slots[s.q.head]) == PageOf(va))
  }

  /** The fault brings the page's plaintext back: it is encrypted by then, the user's,
      and does not begin with 0xFF; or it is not, and then not the user's or begins
      with 0. */
  ghost predicate Straight(s: State, d: nat, va: nat)
    requires |s.q.slots| == CLOCKSIZE && s.q.head < CLOCKSIZE
  {
    var x, text := Flat(s.r.pages, d, PageOf(va)), Plain(s.r.pages, d, PageOf(va));
    text != [] && if SealedByThen(s, d, va) then x.u && text[0] != 255 else !x.u || text[0] == 0
  }

  lemma SealedByThenIs(s: State, d: nat, va: nat)
    requires Ok(s, d) && PageOf(va) < USERPAGES && Flat(s.r.pages, d, PageOf(va)) != NOPTE
    ensures Flat(Enqueued(s, d, va).r.pages, d, PageOf(va)).e <==> SealedByThen(s, d, va)
  {
    hide Inv, EntryIn, Flat, OnlySealed, Inserted, Hole, KernelOnly;
    var m, v := Enqueued(s, d, va), PageOf(va);
    var x, y := Flat(s.r.pages, d, v), Flat(m.r.pages, d, v);
    EnqueuedKeeps(s, d, va);
    LeafExclusive(s.r, d, v);
    LeafExclusive(m.r, d, v);
    SealedFlags(s.r, m.r, d, v);
    if va !in s.q.slots {
      HasEntry(s.r, d, v);
      InsertedReadable(s, d, va);
      assert (v in Readable(s, d) <==> x.p && x.u) && (v in Readable(m, d) <==> y.p && y.u);
    }
  }

  lemma LeafExclusive(r: Ram, d: nat, v: nat)
    requires Inv(r) && IsDir(r, d) && v < USERPAGES && Flat(r.pages, d, v) != NOPTE
    ensures Flat(r.pages, d, v).p != Flat(r.pages, d, v).e
  {
    assert LeafOk(r, d, v);
  }

  lemma SealedFlags(r: Ram, r': Ram, d: nat, v: nat)
    requires OnlySealed(r, r', d) && v < ALLPAGES
    ensures var x, y := Flat(r.pages, d, v), Flat(r'.pages, d, v);
            y.u == x.u && (x.e ==> y.e) && (x.p && !x.u ==> y.p)
  {
    assert SealedOrSame(Flat(r.pages, d, v), Flat(r'.pages, d, v));
  }

  lemma StraightIs(s: State, d: nat, va: nat)
    requires Ok(s, d) && PageOf(va) < USERPAGES && Flat(s.r.pages, d, PageOf(va)) != NOPTE
    ensures var m := Enqueued(s, d, va).r;
            Straight(s, d, va) <==> (Flat(m.pages, d, PageOf(va)).e <==> Decrypts(m, d, PageOf(va)))
  {
    hide Inv, EntryIn, Flat, KernelOnly, Enqueued, SealedByThen;
    var m, v := Enqueued(s, d, va).r, PageOf(va);
    EnqueuedKeeps(s, d, va);
    SealedByThenIs(s, d, va);
    SealedFlags(s.r, m, d, v);
    LeafMapped(m, d, v);
    MappedIsBacked(m, d, v);
    assert Plain(m.pages, d, v) == Plain(s.r.pages, d, v);
  }

  /** What a fault does to the plaintext of its page: nothing, or it is complemented. */
  lemma FaultedPlain(s: State, d: nat, va: nat)
    requires Ok(s, d) && PageOf(va) < USERPAGES && Flat(s.r.pages, d, PageOf(va)) != NOPTE
    ensures var was, now := Plain(s.r.pages, d, PageOf(va)), Plain(Faulted(s, d, va).r.pages, d, PageOf(va));
            now == if Straight(s, d, va) then was else FlipAll(was)
  {
    hide Inv, EntryIn, Flat, KernelOnly, Enqueued, Straight, UnsealedAt, Decrypts, Plain;
    var m, v := Enqueued(s, d, va), PageOf(va);
    EnqueuedKeeps(s, d, va);
    StraightIs(s, d, va);
    LeafMapped(m.r, d, v);
    Unseals(m.r, d, v);
  }

  // -------------------------------------------------------------------- runs

  /** What happens to a process's pages between two calls that map or unmap: the
      hardware sets an accessed bit, mencrypt is called, or a page faults. */
  datatype Event = Access(v: nat) | Encrypt(v: nat, len: int) | Fault(va: nat)

  ghost predicate Possible(s: State, d: nat, e: Event) {
    match e
    case Access(v) => v < USERPAGES && Flat(s.r.pages, d, v).p
    case Encrypt(v, len) => true
    case Fault(va) => PageOf(va) < ALLPAGES && |s.q.slots| == CLOCKSIZE && s.q.head < CLOCKSIZE
  }

  ghost function After(s: State, d: nat, e: Event): State
    requires Possible(s, d, e)
  {
    match e
    case Access(v) =>
      if Leafy(s.r, d, v) then s.(r := s.r.(pages := SetLeaf(s.r, d, v, Flat(s.r.pages, d, v).(a := true)))) else s
    case Encrypt(v, len) => s.(r := Mencrypted(s.r, d, v, len))
    case Fault(va) => Faulted(s, d, va)
  }

  ghost predicate IsRun(run: seq<State>, events: seq<Event>, d: nat) {
    && |run| == |events| + 1
    && forall i :: 0 <= i < |events| ==> Possible(run[i], d, events[i]) && run[i + 1] == After(run[i], d, events[i])
  }

  lemma AccessKeeps(s: State, d: nat, v: nat)
    requires Ok(s, d) && Possible(s, d, Access(v))
    ensures Ok(After(s, d, Access(v)), d) && Loose(After(s, d, Access(v)), d) == Loose(s, d)
  {
    var x := Flat(s.r.pages, d, v).(a := true);
    var t := After(s, d, Access(v));
    HasTable(s.r, d, v);
    assert LeafOk(s.r, d, v);
    ReflagKeepsInv(s.r, d, v, x);
    SetLeafMaps(s.r, d, v, x);
    hide Inv, Flat, EntryIn, SetLeaf, Leafy;
    assert forall i :: 0 <= i < CLOCKSIZE ==> t.q.slots[i] == s.q.slots[i];
    assert Readable(t, d) == Readable(s, d);
  }

  lemma EncryptKeeps(s: State, d: nat, v: nat, len: int)
    requires Ok(s, d)
    ensures Ok(After(s, d, Encrypt(v, len)), d) && Loose(After(s, d, Encrypt(v, len)), d) <= Loose(s, d)
  {
    var t, w := After(s, d, Encrypt(v, len)), FirstPlain(s.r, d, v, v + len);
    MencryptedKeeps(s.r, d, v, len);
    SealedOnly(s.r, d, w);
    hide Inv, Flat, EntryIn, SealedAt, OthersKept, PlainKeptAll, FirstPlain, AllFrames;
    assert forall i :: 0 <= i < CLOCKSIZE ==> t.q.slots[i] == s.q.slots[i];
    assert Readable(t, d) <= Readable(s, d);
  }

  lemma AfterKeeps(s: State, d: nat, e: Event)
    requires Ok(s, d) && Possible(s, d, e)
    ensures Ok(After(s, d, e), d) && Loose(After(s, d, e), d) <= Loose(s, d) + {0}
  {
    hide Ok, Loose, Faulted;
    match e
    case Access(v) => AccessKeeps(s, d, v);
    case Encrypt(v, len) => EncryptKeeps(s, d, v, len);
    case Fault(va) =>
      FaultedKeeps(s, d, va);
      FaultedLoose(s, d, va);
  }

  lemma SlotsCount(slots: seq<nat>)
    ensures |set a | a in slots && a != 0 :: PageOf(a)| <= |slots|
  {
    var pages := set a | a in slots && a != 0 :: PageOf(a);
    if slots == [] {
      assert pages == {};
    } else {
      var rest := slots[..|slots| - 1];
      SlotsCount(rest);
      var fewer := set a | a in rest && a != 0 :: PageOf(a);
      var last := slots[|slots| - 1];
      assert slots == rest + [last];
      assert pages <= fewer + {PageOf(last)};
      Fewer(pages, fewer + {PageOf(last)});
    }
  }

  lemma Fewer(a: set<nat>, b: set<nat>)
    requires a <= b
    ensures |a| <= |b|
  {
    assert b == a + (b - a);
  }

  /** Over every run of accesses, encryptions and page faults, at most CLOCKSIZE pages
      are in the clear besides page 0 and those that were in the clear outside the
      queue at the start. */
  lemma WorkingSet(run: seq<State>, events: seq<Event>, d: nat)
    requires IsRun(run, events, d) && Ok(run[0], d)
    ensures Ok(run[|run| - 1], d) && Loose(run[|run| - 1], d) <= Loose(run[0], d) + {0}
    ensures |Readable(run[|run| - 1], d)| <= CLOCKSIZE + |Loose(run[0], d) + {0}|
  {
    hide Ok, Readable, After, Possible;
    if events == [] {
    } else {
      var n := |events| - 1;
      WorkingSet(run[..n + 1], events[..n], d);
      AfterKeeps(run[n], d, events[n]);
    }
    var t := run[|run| - 1];
    SlotsCount(t.q.slots);
    QueueShape(t, d);
    assert Readable(t, d) <= Queued(t) + Loose(t, d);
    Fewer(Readable(t, d), Queued(t) + (Loose(run[0], d) + {0}));
  }

  // ------------------------------------------------------ plaintext over runs

  /** Event `e` complements the plaintext of page `v`. */
  ghost predicate Flips(s: State, d: nat, e: Event, v: nat) {
    && e.Fault? && PageOf(e.va) == v && Flat(s.r.pages, d, v) != NOPTE
    && |s.q.slots| == CLOCKSIZE && s.q.head < CLOCKSIZE && !Straight(s, d, e.va)
  }

  /** How many of the first `n` events do. */
  ghost function FlipCount(run: seq<State>, events: seq<Event>, d: nat, v: nat, n: nat): nat
    requires n <= |events| < |run|
  {
    if n == 0 then 0 else FlipCount(run, events, d, v, n - 1) + if Flips(run[n - 1], d, events[n - 1], v) then 1 else 0
  }

  lemma AfterPlain(s: State, d: nat, e: Event, v: nat)
    requires Ok(s, d) && Possible(s, d, e) && v < USERPAGES
    ensures Plain(After(s, d, e).r.pages, d, v) ==
            if Flips(s, d, e, v) then FlipAll(Plain(s.r.pages, d, v)) else Plain(s.r.pages, d, v)
  {
    hide Inv, EntryIn, Flat, KernelOnly, Straight, Plain, Mencrypted, Faulted, SetLeaf;
    match e
    case Access(u) => AccessPlain(s, d, u, d, v);
    case Encrypt(u, len) => MencryptedKeeps(s.r, d, u, len);
    case Fault(va) =>
      FaultedKeeps(s, d, va);
      if PageOf(va) == v {
        if Flat(s.r.pages, d, v) == NOPTE {
          NothingFaults(s, d, va);
        } else {
          FaultedPlain(s, d, va);
        }
      }
  }

  lemma NothingFaults(s: State, d: nat, va: nat)
    requires |s.q.slots| == CLOCKSIZE && s.q.head < CLOCKSIZE && Flat(s.r.pages, d, PageOf(va)) == NOPTE
    ensures Faulted(s, d, va) == s
  {
  }

  lemma AccessPlain(s: State, d: nat, u: nat, e: nat, v: nat)
    requires Ok(s, d) && Possible(s, d, Access(u)) && IsDir(s.r, e) && v < USERPAGES
    ensures Plain(After(s, d, Access(u)).r.pages, e, v) == Plain(s.r.pages, e, v)
  {
    HasTable(s.r, d, u);
    LeafPlain(s.r, d, u, Flat(s.r.pages, d, u).(a := true), e, v);
  }

  /** Over every run a page reads as at the start if the faults that complemented it
      are even in number, and else complemented. So a page that was encrypted, the
      user's and did not begin with 0xFF whenever it faulted reads as at the start. */
  lemma {:induction false} PlainOverRuns(run: seq<State>, events: seq<Event>, d: nat, v: nat, n: nat)
    requires IsRun(run, events, d) && Ok(run[0], d) && v < USERPAGES && n <= |events|
    ensures Ok(run[n], d)
    ensures var was, now := Plain(run[0].r.pages, d, v), Plain(run[n].r.pages, d, v);
            && now == (if FlipCount(run, events, d, v, n) % 2 == 0 then was else FlipAll(was))
            && (was != [] ==> (now == was <==> FlipCount(run, events, d, v, n) % 2 == 0))
  {
    hide Ok, Possible, After, Flips, Plain, FlipAll;
    var was := Plain(run[0].r.pages, d, v);
    FlipTwice(was);
    if was != [] {
      FlipDiffers(was);
    }
    if n > 0 {
      PlainOverRuns(run, events, d, v, n - 1);
      AfterKeeps(run[n - 1], d, events[n - 1]);
      AfterPlain(run[n - 1], d, events[n - 1], v);
      assert run[n - 1 + 1] == After(run[n - 1], d, events[n - 1]);
    }
  }
}
