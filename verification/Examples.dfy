/** Inputs on which page encryption and the clock queue do not do what is expected of
    them: the memory of one process, as setupkvm and allocuvm leave it. */
module Examples {
  import opened Common
  import opened PageMap
  import opened AddressSpace
  import opened Encryption
  import opened Clock

  /** The frames of the kernel image, and where its writable data begin. */
  const LO: nat := 0x120
  const KDATA: nat := 0x80108

  /** A process with `n` pages; which of them are encrypted, which accessed; and the
      byte that all of them store. */
  datatype Proc = Proc(n: nat, sealed: set<nat>, accessed: set<nat>, byte: Byte)

  /** Behind the kernel image: the directory, the 64 tables of the kernel's half, the
      table of the first user pages, and the pages. */
  function PlaceOf(f: nat): Place {
    if f < LO then Kernel
    else if f == LO then Dir
    else if f <= LO + 56 then Tab(LO, 511 + f - LO)
    else if f <= LO + 64 then Tab(LO, 959 + f - LO)
    else if f == LO + 65 then Tab(LO, 0)
    else User(LO, f - LO - 66)
  }

  function TableFrame(i: nat): nat {
    if i == 0 then LO + 65 else if 512 <= i < 568 then LO + i - 511 else if 1016 <= i then LO + i - 959 else 0
  }

  function DirEntry(i: nat): Pte {
    if i == 0 || KernelTable(i) then Pte(TableFrame(i), true, true, true, false, false) else NOPTE
  }

  function Leaf(x: Proc, v: nat): Pte {
    if v < x.n then Pte(LO + 66 + v, v !in x.sealed, true, true, v in x.accessed, v in x.sealed) else KernelPte(KDATA, v)
  }

  function PageAt(x: Proc, f: nat): Page {
    match PlaceOf(f)
    case Dir => Entries(seq(NENTRIES, i requires 0 <= i => DirEntry(i)))
    case Tab(_, i) => Entries(seq(NENTRIES, j requires 0 <= j => Leaf(x, i * NENTRIES + j)))
    case User(_, _) => Bytes(seq(PGSIZE, _ => x.byte))
    case _ => Junk()
  }

  function Memory(x: Proc): Ram {
    var frames := LO + 66 + x.n;
    Ram(LO, [], seq(frames, f requires 0 <= f => PageAt(x, f)), seq(frames, f requires 0 <= f => PlaceOf(f)))
  }

  lemma MemoryEntry(x: Proc, i: nat)
    requires i < NENTRIES
    ensures EntryIn(Memory(x).pages, LO, i) == DirEntry(i)
  {
  }

  /** The two levels map the user's pages and, beyond them, what setupkvm maps. */
  lemma MemoryFlat(x: Proc, v: nat)
    requires x.n <= NENTRIES && v < ALLPAGES
    ensures Flat(Memory(x).pages, LO, v) == Leaf(x, v)
  {
    var i := v / NENTRIES;
    MemoryEntry(x, i);
    if i == 0 || KernelTable(i) {
      assert PlaceOf(TableFrame(i)) == Tab(LO, i);
      assert v == i * NENTRIES + v % NENTRIES;
    }
  }

  lemma MemoryFrame(x: Proc, f: nat)
    requires f < |Memory(x).own|
    ensures var r := Memory(x); |r.own| == |r.pages| && r.own[f] == PlaceOf(f) && r.pages[f] == PageAt(x, f) && r.lo == LO
  {
  }

  lemma OneDirectory(x: Proc, d: nat)
    ensures IsDir(Memory(x), d) <==> d == LO
  {
  }

  lemma MemoryFrameOk(x: Proc, f: nat)
    requires x.n <= NENTRIES && f < |Memory(x).own|
    ensures FrameOk(Memory(x), f)
  {
    var r := Memory(x);
    MemoryFrame(x, f);
    OneDirectory(x, LO);
    hide Memory, Flat, EntryIn;
    match PlaceOf(f)
    case Tab(_, i) => MemoryEntry(x, i);
    case User(_, v) =>
      assert v < x.n by {
        MemorySize(x);
      }
      MemoryFlat(x, v);
    case _ =>
  }

  lemma MemorySize(x: Proc)
    ensures |Memory(x).own| == |Memory(x).pages| == LO + 66 + x.n && Memory(x).free == []
  {
  }

  lemma MemoryOk(x: Proc)
    requires x.n <= NENTRIES
    ensures Inv(Memory(x)) && IsDir(Memory(x), LO) && KernelOnly(Memory(x), LO)
  {
    hide Memory, Flat, EntryIn;
    var r := Memory(x);
    MemorySize(x);
    OneDirectory(x, LO);
    forall f | 0 <= f < |r.own|
      ensures FrameOk(r, f) && r.own[f] != Free
    {
      MemoryFrame(x, f);
      MemoryFrameOk(x, f);
    }
    forall d: nat, i: nat
      ensures DirOk(r, d, i)
    {
      MemoryDirOk(x, d, i);
    }
    forall d: nat, v: nat
      ensures LeafOk(r, d, v)
    {
      MemoryLeafOk(x, d, v);
    }
    forall v | USERPAGES <= v < ALLPAGES
      ensures KernelPage(Flat(r.pages, LO, v))
    {
      MemoryFlat(x, v);
    }
  }

  lemma MemoryDirOk(x: Proc, d: nat, i: nat)
    ensures DirOk(Memory(x), d, i)
  {
    hide Memory, EntryIn;
    OneDirectory(x, d);
    MemorySize(x);
    if d == LO && i < NENTRIES {
      MemoryEntry(x, i);
      if DirEntry(i).p {
        MemoryFrame(x, TableFrame(i));
      }
    }
  }

  lemma MemoryLeafOk(x: Proc, d: nat, v: nat)
    requires x.n <= NENTRIES
    ensures LeafOk(Memory(x), d, v)
  {
    hide Memory, Flat;
    OneDirectory(x, d);
    MemorySize(x);
    if d == LO && v < USERPAGES {
      MemoryFlat(x, v);
      if v < x.n {
        MemoryFrame(x, LO + 66 + v);
      }
    }
  }

  lemma MemoryPlain(x: Proc, v: nat)
    requires x.n <= NENTRIES && v < x.n
    ensures Plain(Memory(x).pages, LO, v) == seq(PGSIZE, _ => if v in x.sealed then Flip(x.byte) else x.byte)
  {
    hide Memory, Flat;
    MemorySize(x);
    MemoryFlat(x, v);
    MemoryFrame(x, LO + 66 + v);
  }

  // -------------------------------------------------------------- encryption

  /** mencrypt of two pages in the clear encrypts one. */
  lemma SecondStaysPlain()
    ensures var r := Memory(Proc(2, {}, {}, 255));
            var r' := Mencrypted(r, LO, 0, 2);
            && Inv(r) && IsDir(r, LO) && (forall v :: 0 <= v < 2 ==> Uva2ka(r.pages, LO, v).Frame?)
            && Flat(r'.pages, LO, 0).e && !Flat(r'.pages, LO, 1).e
  {
    hide Inv, Flat, EntryIn, Memory;
    var x := Proc(2, {}, {}, 255);
    var r := Memory(x);
    MemoryOk(x);
    MemoryFlat(x, 0);
    MemoryFlat(x, 1);
    MemoryEntry(x, 0);
    assert forall v :: 0 <= v < 2 ==> v / NENTRIES == 0;
    assert AllFrames(r, LO, 0, 2) && FirstPlain(r, LO, 0, 2) == 0;
    MencryptedKeeps(r, LO, 0, 2);
  }

  /** Encrypting a page of 0xFF bytes and decrypting it complements it. */
  lemma FirstByteLost()
    ensures var r := Memory(Proc(1, {}, {}, 255));
            && Inv(r) && IsDir(r, LO) && Flat(r.pages, LO, 0).p && Flat(r.pages, LO, 0).u
            && Plain(UnsealedAt(SealedAt(r, LO, 0), LO, 0).pages, LO, 0) != Plain(r.pages, LO, 0)
  {
    hide Inv, Flat, EntryIn, Memory, SealedAt, UnsealedAt, Plain;
    var x := Proc(1, {}, {}, 255);
    MemoryOk(x);
    MemoryFlat(x, 0);
    MemoryPlain(x, 0);
    EncryptThenDecrypt(Memory(x), LO, 0);
  }

  // ------------------------------------------------------------------- clock

  /** Ten pages: pages 1 to 8 in the clear and in the queue, page 1 at the head and
      accessed. */
  function FullQueue(): State {
    State(Memory(Proc(10, {0, 9}, {1}, 255)), Queue(seq(CLOCKSIZE, i requires 0 <= i => (i + 1) * PGSIZE), 0))
  }

  lemma FullQueueOk()
    ensures Ok(FullQueue(), LO) && Hole(FullQueue().q, 0) == CLOCKSIZE
  {
    hide Inv, Flat, EntryIn, Memory, KernelOnly;
    var s, x := FullQueue(), Proc(10, {0, 9}, {1}, 255);
    MemoryOk(x);
    MemoryEntry(x, 0);
    forall i | 0 <= i < CLOCKSIZE
      ensures s.q.slots[i] == Down(s.q.slots[i]) && Tabled(s.r, LO, PageOf(s.q.slots[i]))
    {
      assert PageOf(s.q.slots[i]) == i + 1;
    }
  }

  lemma FullQueueFlags()
    ensures var s := FullQueue();
            && Accessed(s, LO, 0) && !Accessed(s, LO, 1) && Chosen(s, LO, 0) == 1
            && 1 in Readable(s, LO) && 2 in Readable(s, LO) && Flat(s.r.pages, LO, 9) != NOPTE
  {
    hide Flat, EntryIn, Memory;
    var s, x := FullQueue(), Proc(10, {0, 9}, {1}, 255);
    MemoryFlat(x, 1);
    MemoryFlat(x, 2);
    MemoryFlat(x, 9);
    assert PageOf(s.q.slots[0]) == 1 && PageOf(s.q.slots[1]) == 2;
    assert Chosen(s, LO, 1) == 1;
  }

  /** A fault on page 9 encrypts page 1, although it has been accessed and page 2 has
      not. */
  lemma AccessedIsEvicted()
    ensures var s := FullQueue();
            var t := Faulted(s, LO, 9 * PGSIZE);
            && Ok(s, LO) && Accessed(s, LO, 0) && !Accessed(s, LO, 1) && Chosen(s, LO, 0) == 1
            && 1 in Readable(s, LO) && 1 !in Readable(t, LO) && 2 in Readable(t, LO)
  {
    hide Ok, Flat, Inserted, Faulted, Hole, Readable, Accessed, Chosen, Memory, EntryIn;
    var s, va := FullQueue(), 9 * PGSIZE;
    FullQueueOk();
    FullQueueFlags();
    assert PageOf(s.q.slots[0]) == 1 && PageOf(va) == 9 && va !in s.q.slots;
    HasEntry(s.r, LO, 9);
    InsertedReadable(s, LO, va);
    FaultedReadable(s, LO, va);
  }

  /** A process whose only page is encrypted, and an empty queue. */
  function EmptyQueue(): State {
    State(Memory(Proc(1, {0}, {}, 255)), Queue(seq(CLOCKSIZE, _ => 0), 0))
  }

  /** A fault anywhere on page 0 puts it in the clear and not in the queue. */
  lemma PageZeroIsLoose(va: nat)
    requires va < PGSIZE
    ensures var s := EmptyQueue(); Ok(s, LO) && 0 !in Loose(s, LO) && 0 in Loose(Faulted(s, LO, va), LO)
  {
    hide Inv, Flat, EntryIn, Memory, KernelOnly, Faulted;
    var s, x := EmptyQueue(), Proc(1, {0}, {}, 255);
    MemoryOk(x);
    MemoryFlat(x, 0);
    assert PageOf(va) == 0;
    FaultedLoose(s, LO, va);
  }
}
