/** The file system of fs.c as a value: superblock, block contents and in-core
    inodes. Which slot owns which block, and how file bytes sit in blocks. */
module FsState {
  import opened Common
  import opened Blocks

  const NDIRECT: nat := 12
  const NINDIRECT: nat := 128
  const MAXFILE: nat := NDIRECT + NINDIRECT
  const MAXBYTES: nat := MAXFILE * BSIZE
  const BPB: nat := 8 * BSIZE
  const IPB: nat := 8

  /** `datastart` is mkfs's nmeta: blocks below it are boot, log, inodes, bitmap. */
  datatype Super = Super(size: nat, ninodes: nat, inodestart: nat, bmapstart: nat, datastart: nat)

  predicate ValidSuper(sb: Super) {
    && 1 <= sb.inodestart
    && sb.inodestart + sb.ninodes / IPB + 1 <= sb.bmapstart
    && sb.bmapstart + sb.size / BPB + 1 <= sb.datastart <= sb.size <= WORD_LIMIT
  }

  function BBlock(sb: Super, b: nat): nat { b / BPB + sb.bmapstart }

  function IBlock(sb: Super, i: nat): nat { i / IPB + sb.inodestart }

  datatype Inode = Inode(typ: nat, major: nat, minor: nat, nlink: nat, size: nat, addrs: seq<nat>)

  datatype Fs = Fs(sb: Super, blocks: Disk, inodes: seq<Inode>)

  predicate AddrOk(sb: Super, a: nat) {
    a == 0 || sb.datastart <= a < sb.size
  }

  ghost predicate Shape(fs: Fs) {
    && ValidSuper(fs.sb)
    && |fs.blocks| == fs.sb.size && |fs.inodes| == fs.sb.ninodes
    && (forall i :: 0 <= i < |fs.inodes| ==> |fs.inodes[i].addrs| == NDIRECT + 1)
    && (forall i, k :: 0 <= i < |fs.inodes| && 0 <= k <= NDIRECT ==> AddrOk(fs.sb, fs.inodes[i].addrs[k]))
  }

  // ------------------------------------------------------------- ownership

  /** A place that can hold a block number: an address of inode `i` (the last one
      is the indirect block), or an entry of its indirect block. */
  datatype Slot = Addr(i: nat, k: nat) | Entry(i: nat, j: nat)

  predicate ValidSlot(fs: Fs, s: Slot) {
    s.i < |fs.inodes| && match s case Addr(_, k) => k <= NDIRECT case Entry(_, j) => j < NINDIRECT
  }

  /** The block number a slot holds, 0 for none. */
  function At(fs: Fs, s: Slot): (b: nat)
    requires Shape(fs) && ValidSlot(fs, s)
  {
    match s
    case Addr(i, k) => fs.inodes[i].addrs[k]
    case Entry(i, j) =>
      var a := fs.inodes[i].addrs[NDIRECT];
      if a == 0 then 0 else Word(fs.blocks[a], j)
  }

  /** A slot that holds a data block, not the indirect block. */
  predicate IsData(s: Slot) {
    s.Addr? ==> s.k < NDIRECT
  }

  predicate Used(fs: Fs, b: nat)
    requires Shape(fs) && b < fs.sb.size
  {
    Bit(fs.blocks[BBlock(fs.sb, b)], b % BPB)
  }

  /** The block slot `s` holds, if any, is owned by it. */
  ghost predicate SlotOk(fs: Fs, owner: map<nat, Slot>, s: Slot) {
    Shape(fs) && (ValidSlot(fs, s) && At(fs, s) != 0 ==> At(fs, s) in owner && owner[At(fs, s)] == s)
  }

  /** Block `b` is a data block, and its owner holds it. */
  ghost predicate BlockOk(fs: Fs, owner: map<nat, Slot>, b: nat) {
    Shape(fs) && b in owner && fs.sb.datastart <= b < fs.sb.size && ValidSlot(fs, owner[b]) && At(fs, owner[b]) == b
  }

  /** `owner` inverts At: every block held by a slot is owned by that slot alone. */
  ghost predicate Owned(fs: Fs, owner: map<nat, Slot>) {
    Shape(fs) && (forall s :: SlotOk(fs, owner, s)) && forall b :: b in owner ==> BlockOk(fs, owner, b)
  }

  /** The free bitmap says used exactly for metadata and owned blocks. */
  ghost predicate BitsOk(fs: Fs, owner: map<nat, Slot>) {
    Shape(fs) && forall b :: 0 <= b < fs.sb.size ==> (Used(fs, b) <==> b < fs.sb.datastart || b in owner)
  }

  ghost predicate Inv(fs: Fs, owner: map<nat, Slot>) {
    Owned(fs, owner) && BitsOk(fs, owner)
  }

  lemma InvShape(fs: Fs, owner: map<nat, Slot>)
    requires Inv(fs, owner)
    ensures Shape(fs)
  {
  }

  lemma InvSlot(fs: Fs, owner: map<nat, Slot>, s: Slot)
    requires Inv(fs, owner) && ValidSlot(fs, s) && At(fs, s) != 0
    ensures At(fs, s) in owner && owner[At(fs, s)] == s
  {
    hide At, Bit;
    assert SlotOk(fs, owner, s);
  }

  lemma InvBlock(fs: Fs, owner: map<nat, Slot>, b: nat)
    requires Inv(fs, owner) && b in owner
    ensures BlockOk(fs, owner, b) && fs.sb.inodestart <= b
  {
    hide At, BitsOk, SlotOk;
  }

  /** What the invariant means without naming `owner`: a bit is set exactly for
      metadata and for blocks that exactly one slot holds. */
  lemma BitmapIsExact(fs: Fs, owner: map<nat, Slot>, b: nat)
    requires Inv(fs, owner) && b < fs.sb.size
    ensures Used(fs, b) <==> b < fs.sb.datastart || exists s :: ValidSlot(fs, s) && At(fs, s) == b
    ensures forall s, t :: ValidSlot(fs, s) && ValidSlot(fs, t) && At(fs, s) == At(fs, t) == b && b != 0 ==> s == t
    ensures b < fs.sb.datastart ==> forall s :: ValidSlot(fs, s) && At(fs, s) == b ==> b == 0
  {
    hide At, Bit;
    forall s | ValidSlot(fs, s) && At(fs, s) == b != 0
      ensures b in owner && owner[b] == s
    {
      assert SlotOk(fs, owner, s);
    }
    assert b in owner ==> BlockOk(fs, owner, b);
  }

  // ----------------------------------------------------------- free blocks

  ghost function FreeBlocks(fs: Fs): set<nat>
    requires Shape(fs)
  {
    set b | 0 <= b < fs.sb.size && !Used(fs, b)
  }

  /** How many bits of the bitmap are clear. */
  ghost function Room(fs: Fs): nat {
    if Shape(fs) then |FreeBlocks(fs)| else 0
  }

  lemma NoRoom(fs: Fs)
    requires Shape(fs)
    ensures Room(fs) == 0 <==> forall c :: 0 <= c < fs.sb.size ==> Used(fs, c)
  {
    if Room(fs) == 0 {
      assert forall c :: 0 <= c < fs.sb.size && !Used(fs, c) ==> c in FreeBlocks(fs);
    } else {
      var c :| c in FreeBlocks(fs);
    }
  }

  /** One more block owned is one block less free. */
  lemma RoomLess(fs: Fs, owner: map<nat, Slot>, fs': Fs, b: nat, s: Slot)
    requires Inv(fs, owner) && Inv(fs', owner[b := s]) && fs'.sb == fs.sb
    requires b !in owner && fs.sb.datastart <= b < fs.sb.size
    ensures Room(fs) > 0 && Room(fs') == Room(fs) - 1
  {
    hide Used, Owned;
    assert FreeBlocks(fs) == FreeBlocks(fs') + {b};
  }

  /** The same blocks owned are the same blocks free. */
  lemma RoomSame(fs: Fs, fs': Fs, owner: map<nat, Slot>)
    requires Inv(fs, owner) && Inv(fs', owner) && fs'.sb == fs.sb
    ensures Room(fs') == Room(fs)
  {
    hide Used, Owned;
    assert FreeBlocks(fs) == FreeBlocks(fs');
  }

  /** The same data region and inodes: ownership does not notice the rest. */
  lemma OwnedByData(fs: Fs, fs': Fs, owner: map<nat, Slot>)
    requires Owned(fs, owner)
    requires fs'.sb == fs.sb && fs'.inodes == fs.inodes && |fs'.blocks| == |fs.blocks|
    requires forall b :: fs.sb.datastart <= b < fs.sb.size ==> fs'.blocks[b] == fs.blocks[b]
    ensures Owned(fs', owner)
    ensures forall s :: ValidSlot(fs, s) ==> At(fs', s) == At(fs, s)
  {
    hide Word, Bit;
    forall s | ValidSlot(fs, s)
      ensures At(fs', s) == At(fs, s)
    {
      if s.Entry? && fs.inodes[s.i].addrs[NDIRECT] != 0 {
        assert AddrOk(fs.sb, fs.inodes[s.i].addrs[NDIRECT]);
      }
    }
    OwnedMoved(fs, fs', owner);
  }

  /** Ownership only depends on what the slots hold. */
  lemma OwnedMoved(fs: Fs, fs': Fs, owner: map<nat, Slot>)
    requires Owned(fs, owner) && Shape(fs') && fs'.sb == fs.sb && |fs'.inodes| == |fs.inodes|
    requires forall s :: ValidSlot(fs, s) ==> At(fs', s) == At(fs, s)
    ensures Owned(fs', owner)
  {
    hide At;
    forall s
      ensures SlotOk(fs', owner, s)
    {
      assert SlotOk(fs, owner, s);
    }
    forall b | b in owner
      ensures BlockOk(fs', owner, b)
    {
      assert BlockOk(fs, owner, b);
    }
  }

  /** The bitmap with block `b` marked used (`v`) or free. */
  function Mark(fs: Fs, b: nat, v: bool): (r: Fs)
    requires Shape(fs) && b < fs.sb.size && Used(fs, b) == !v
    ensures Shape(r) && r.sb == fs.sb && r.inodes == fs.inodes && |r.blocks| == |fs.blocks|
    ensures forall c :: 0 <= c < fs.sb.size && c != BBlock(fs.sb, b) ==> r.blocks[c] == fs.blocks[c]
  {
    var bb := BBlock(fs.sb, b);
    fs.(blocks := fs.blocks[bb := FlipBit(fs.blocks[bb], b % BPB, v)])
  }

  lemma SameBitSameBlock(b: nat, c: nat)
    ensures b / BPB == c / BPB && b % BPB == c % BPB ==> b == c
  {
  }

  lemma UsedAfterMark(fs: Fs, b: nat, v: bool, c: nat)
    requires Shape(fs) && b < fs.sb.size && c < fs.sb.size && Used(fs, b) == !v
    ensures Used(Mark(fs, b, v), c) <==> if c == b then v else Used(fs, c)
  {
    SameBitSameBlock(b, c);
  }

  /** balloc's effect once it has picked the free block `b`. */
  function Alloc(fs: Fs, b: nat): (r: Fs)
    requires Shape(fs) && fs.sb.datastart <= b < fs.sb.size && !Used(fs, b)
    ensures Shape(r) && r.sb == fs.sb && r.inodes == fs.inodes
    ensures r.blocks[b] == ZeroBlock()
    ensures forall c :: 0 <= c < fs.sb.size && c != BBlock(fs.sb, b) && c != b ==> r.blocks[c] == fs.blocks[c]
  {
    var m := Mark(fs, b, true);
    m.(blocks := m.blocks[b := ZeroBlock()])
  }

  lemma UsedAfterAlloc(fs: Fs, b: nat, c: nat)
    requires Shape(fs) && fs.sb.datastart <= b < fs.sb.size && !Used(fs, b) && c < fs.sb.size
    ensures Used(Alloc(fs, b), c) <==> c == b || Used(fs, c)
  {
    UsedAfterMark(fs, b, true, c);
    SameBitmap(Mark(fs, b, true), Alloc(fs, b), c);
  }

  /** Store a freshly allocated block in an empty address of inode `i`. */
  function AssignAddr(fs: Fs, b: nat, i: nat, k: nat): (r: Fs)
    requires Shape(fs) && fs.sb.datastart <= b < fs.sb.size && !Used(fs, b)
    requires i < |fs.inodes| && k <= NDIRECT
    ensures Shape(r)
  {
    var a := Alloc(fs, b);
    a.(inodes := a.inodes[i := a.inodes[i].(addrs := a.inodes[i].addrs[k := b])])
  }

  /** `fs'` differs from `fs` in that slot `s0`, empty before, now holds `b`. */
  ghost predicate Assigned(fs: Fs, fs': Fs, s0: Slot, b: nat) {
    && Shape(fs) && Shape(fs') && fs'.sb == fs.sb
    && forall s :: ValidSlot(fs, s) ==> At(fs', s) == if s == s0 then b else At(fs, s)
  }

  lemma OwnedAfterAssign(fs: Fs, fs': Fs, owner: map<nat, Slot>, s0: Slot, b: nat)
    requires Owned(fs, owner) && Assigned(fs, fs', s0, b) && ValidSlot(fs, s0) && At(fs, s0) == 0
    requires b !in owner && fs.sb.datastart <= b < fs.sb.size
    ensures Owned(fs', owner[b := s0])
  {
    hide Owned, Assigned, At;
    var owner' := owner[b := s0];
    AssignedShape(fs, fs', s0, b);
    forall s | ValidSlot(fs', s) && At(fs', s) != 0
      ensures At(fs', s) in owner' && owner'[At(fs', s)] == s
    {
      AssignedSlot(fs, fs', owner, s0, b, s);
    }
    forall c | c in owner'
      ensures fs'.sb.datastart <= c < fs'.sb.size && ValidSlot(fs', owner'[c]) && At(fs', owner'[c]) == c
    {
      AssignedBlock(fs, fs', owner, s0, b, c);
    }
    OwnedIntro(fs', owner');
  }

  lemma OwnedIntro(fs: Fs, owner: map<nat, Slot>)
    requires Shape(fs)
    requires forall s :: ValidSlot(fs, s) && At(fs, s) != 0 ==> At(fs, s) in owner && owner[At(fs, s)] == s
    requires forall b :: b in owner ==> fs.sb.datastart <= b < fs.sb.size && ValidSlot(fs, owner[b]) && At(fs, owner[b]) == b
    ensures Owned(fs, owner)
  {
    hide At, Shape, ValidSlot;
  }

  lemma AssignedShape(fs: Fs, fs': Fs, s0: Slot, b: nat)
    requires Assigned(fs, fs', s0, b)
    ensures Shape(fs) && Shape(fs') && fs'.sb == fs.sb && forall s :: ValidSlot(fs', s) <==> ValidSlot(fs, s)
  {
    hide At;
  }

  lemma AssignedSlot(fs: Fs, fs': Fs, owner: map<nat, Slot>, s0: Slot, b: nat, s: Slot)
    requires Owned(fs, owner) && Assigned(fs, fs', s0, b) && ValidSlot(fs, s) && ValidSlot(fs', s) && b !in owner
    ensures At(fs', s) != 0 ==> At(fs', s) in owner[b := s0] && owner[b := s0][At(fs', s)] == s
  {
    hide At, Shape, ValidSlot;
    assert SlotOk(fs, owner, s);
  }

  lemma AssignedBlock(fs: Fs, fs': Fs, owner: map<nat, Slot>, s0: Slot, b: nat, c: nat)
    requires Owned(fs, owner) && Assigned(fs, fs', s0, b) && ValidSlot(fs, s0) && At(fs, s0) == 0
    requires c in owner[b := s0] && fs.sb.datastart <= b < fs.sb.size && fs.sb.datastart > 0
    ensures var s := owner[b := s0][c];
            fs'.sb.datastart <= c < fs'.sb.size && ValidSlot(fs, s) && (ValidSlot(fs', s) ==> At(fs', s) == c)
  {
    hide At, Shape, ValidSlot;
  }

  /** The same bitmap blocks say the same about every block. */
  lemma SameBitmap(fs: Fs, fs': Fs, b: nat)
    requires Shape(fs) && Shape(fs') && fs'.sb == fs.sb && b < fs.sb.size
    requires forall c :: fs.sb.bmapstart <= c < fs.sb.datastart ==> fs'.blocks[c] == fs.blocks[c]
    ensures Used(fs', b) == Used(fs, b)
  {
    BBlockInBitmap(fs.sb, b);
  }

  lemma BBlockInBitmap(sb: Super, b: nat)
    requires ValidSuper(sb) && b < sb.size
    ensures sb.bmapstart <= BBlock(sb, b) < sb.datastart
  {
  }

  lemma BitsAfterAlloc(fs: Fs, fs': Fs, owner: map<nat, Slot>, s0: Slot, b: nat)
    requires BitsOk(fs, owner) && fs.sb.datastart <= b < fs.sb.size && !Used(fs, b)
    requires Shape(fs') && fs'.sb == fs.sb
    requires forall c :: fs.sb.bmapstart <= c < fs.sb.datastart ==> fs'.blocks[c] == Alloc(fs, b).blocks[c]
    ensures BitsOk(fs', owner[b := s0])
  {
    forall c | 0 <= c < fs.sb.size
      ensures Used(fs', c) <==> c < fs.sb.datastart || c in owner[b := s0]
    {
      UsedAfterAlloc(fs, b, c);
      SameBitmap(Alloc(fs, b), fs', c);
    }
  }

  lemma AddrAssigned(fs: Fs, owner: map<nat, Slot>, b: nat, i: nat, k: nat)
    requires Inv(fs, owner) && fs.sb.datastart <= b < fs.sb.size && !Used(fs, b)
    requires i < |fs.inodes| && k <= NDIRECT && fs.inodes[i].addrs[k] == 0
    ensures Inv(AssignAddr(fs, b, i, k), owner[b := Addr(i, k)])
    ensures Assigned(fs, AssignAddr(fs, b, i, k), Addr(i, k), b)
  {
    AddrAssignedAt(fs, owner, b, i, k);
    OwnedAfterAssign(fs, AssignAddr(fs, b, i, k), owner, Addr(i, k), b);
    BitsAfterAlloc(fs, AssignAddr(fs, b, i, k), owner, Addr(i, k), b);
  }

  lemma AddrAssignedAt(fs: Fs, owner: map<nat, Slot>, b: nat, i: nat, k: nat)
    requires Owned(fs, owner) && fs.sb.datastart <= b < fs.sb.size && !Used(fs, b) && b !in owner
    requires i < |fs.inodes| && k <= NDIRECT && fs.inodes[i].addrs[k] == 0
    ensures Assigned(fs, AssignAddr(fs, b, i, k), Addr(i, k), b)
  {
    var fs' := AssignAddr(fs, b, i, k);
    BBlockInBitmap(fs.sb, b);
    forall s | ValidSlot(fs, s)
      ensures At(fs', s) == if s == Addr(i, k) then b else At(fs, s)
    {
      if s.Entry? {
        var a := fs'.inodes[s.i].addrs[NDIRECT];
        if s.i == i && k == NDIRECT {
          assert Word(ZeroBlock(), s.j) == 0;
        } else if a != 0 {
          assert At(fs, Addr(s.i, NDIRECT)) == a && SlotOk(fs, owner, Addr(s.i, NDIRECT));
        }
      }
    }
  }

  /** Store a freshly allocated block in an empty entry of the indirect block. */
  function AssignEntry(fs: Fs, b: nat, i: nat, j: nat): (r: Fs)
    requires Shape(fs) && fs.sb.datastart <= b < fs.sb.size && !Used(fs, b)
    requires i < |fs.inodes| && j < NINDIRECT && fs.inodes[i].addrs[NDIRECT] != 0
    ensures Shape(r)
  {
    var m := Alloc(fs, b);
    var a := m.inodes[i].addrs[NDIRECT];
    m.(blocks := m.blocks[a := SetWord(m.blocks[a], j, b)])
  }

  lemma EntryAssigned(fs: Fs, owner: map<nat, Slot>, b: nat, i: nat, j: nat)
    requires Inv(fs, owner) && fs.sb.datastart <= b < fs.sb.size && !Used(fs, b)
    requires i < |fs.inodes| && j < NINDIRECT && fs.inodes[i].addrs[NDIRECT] != 0
    requires At(fs, Entry(i, j)) == 0
    ensures Inv(AssignEntry(fs, b, i, j), owner[b := Entry(i, j)])
    ensures Assigned(fs, AssignEntry(fs, b, i, j), Entry(i, j), b)
  {
    EntryAssignedAt(fs, owner, b, i, j);
    OwnedAfterAssign(fs, AssignEntry(fs, b, i, j), owner, Entry(i, j), b);
    BitsAfterAlloc(fs, AssignEntry(fs, b, i, j), owner, Entry(i, j), b);
  }

  lemma EntryAssignedAt(fs: Fs, owner: map<nat, Slot>, b: nat, i: nat, j: nat)
    requires Owned(fs, owner) && fs.sb.datastart <= b < fs.sb.size && !Used(fs, b) && b !in owner
    requires i < |fs.inodes| && j < NINDIRECT && fs.inodes[i].addrs[NDIRECT] != 0
    ensures Assigned(fs, AssignEntry(fs, b, i, j), Entry(i, j), b)
  {
    var fs' := AssignEntry(fs, b, i, j);
    var a := fs.inodes[i].addrs[NDIRECT];
    assert At(fs, Addr(i, NDIRECT)) == a && SlotOk(fs, owner, Addr(i, NDIRECT));
    WordOfSetWord(fs.blocks[a], j, b);
    BBlockInBitmap(fs.sb, b);
    forall s | ValidSlot(fs, s)
      ensures At(fs', s) == if s == Entry(i, j) then b else At(fs, s)
    {
      if s.Entry? {
        var x := fs.inodes[s.i].addrs[NDIRECT];
        if x != 0 {
          assert At(fs, Addr(s.i, NDIRECT)) == x && SlotOk(fs, owner, Addr(s.i, NDIRECT));
        }
      }
    }
  }

  /** Overwriting an owned data block disturbs no slot and no bit. */
  lemma DataWritten(fs: Fs, owner: map<nat, Slot>, b: nat, data: Block)
    requires Inv(fs, owner) && b in owner && IsData(owner[b])
    ensures Inv(fs.(blocks := fs.blocks[b := data]), owner)
    ensures forall s :: ValidSlot(fs, s) ==> At(fs.(blocks := fs.blocks[b := data]), s) == At(fs, s)
  {
    hide Word, Bit;
    var fs' := fs.(blocks := fs.blocks[b := data]);
    DataWrittenAt(fs, owner, b, data);
    hide At;
    OwnedMoved(fs, fs', owner);
    hide Owned;
    forall c | 0 <= c < fs.sb.size
      ensures Used(fs', c) == Used(fs, c)
    {
      SameBitmap(fs, fs', c);
    }
  }

  lemma DataWrittenAt(fs: Fs, owner: map<nat, Slot>, b: nat, data: Block)
    requires Owned(fs, owner) && b in owner && IsData(owner[b])
    ensures Shape(fs.(blocks := fs.blocks[b := data]))
    ensures forall s :: ValidSlot(fs, s) ==> At(fs.(blocks := fs.blocks[b := data]), s) == At(fs, s)
  {
    var fs' := fs.(blocks := fs.blocks[b := data]);
    forall s | ValidSlot(fs, s)
      ensures At(fs', s) == At(fs, s)
    {
      if s.Entry? && fs.inodes[s.i].addrs[NDIRECT] != 0 {
        assert At(fs, Addr(s.i, NDIRECT)) != 0 && SlotOk(fs, owner, Addr(s.i, NDIRECT));
      }
    }
  }

  // --------------------------------------------------------- file contents

  function SlotOf(i: nat, bn: nat): Slot {
    if bn < NDIRECT then Addr(i, bn) else Entry(i, bn - NDIRECT)
  }

  /** Inode `i` has exactly the blocks that bytes `0 .. hi` need: no holes. */
  ghost predicate Extent(fs: Fs, i: nat, hi: nat) {
    && Shape(fs) && i < |fs.inodes| && hi <= MAXBYTES
    && (forall bn :: 0 <= bn < MAXFILE ==> (At(fs, SlotOf(i, bn)) != 0 <==> bn * BSIZE < hi))
    && (fs.inodes[i].addrs[NDIRECT] != 0 <==> NDIRECT * BSIZE < hi)
  }

  /** Byte `p` of the file. */
  function ByteAt(fs: Fs, i: nat, p: nat): Byte
    requires Shape(fs) && i < |fs.inodes| && p < MAXBYTES
    requires At(fs, SlotOf(i, p / BSIZE)) < fs.sb.size
  {
    fs.blocks[At(fs, SlotOf(i, p / BSIZE))][p % BSIZE]
  }

  /** The first `hi` bytes of inode `i`, as a plain byte sequence. */
  ghost function Bytes(fs: Fs, owner: map<nat, Slot>, i: nat, hi: nat): (s: seq<Byte>)
    requires Inv(fs, owner) && Extent(fs, i, hi)
    ensures |s| == hi
  {
    seq(hi, p requires 0 <= p < hi => MappedBelow(fs, owner, i, hi, p); ByteAt(fs, i, p))
  }

  lemma MappedBelow(fs: Fs, owner: map<nat, Slot>, i: nat, hi: nat, p: nat)
    requires Inv(fs, owner) && Extent(fs, i, hi) && p < hi
    ensures var a := At(fs, SlotOf(i, p / BSIZE));
            a != 0 && a < fs.sb.size && a in owner && owner[a] == SlotOf(i, p / BSIZE) && IsData(owner[a])
  {
    hide At, Bit;
    assert ValidSlot(fs, SlotOf(i, p / BSIZE));
    assert At(fs, SlotOf(i, p / BSIZE)) != 0;
    InvSlot(fs, owner, SlotOf(i, p / BSIZE));
  }

  /** Two states agree on file `x` when its slots and their data blocks agree. */
  ghost predicate FileKept(fs: Fs, owner: map<nat, Slot>, fs': Fs, x: nat) {
    && Owned(fs, owner) && Shape(fs') && fs'.sb == fs.sb
    && (forall s :: ValidSlot(fs, s) && s.i == x ==> At(fs', s) == At(fs, s))
    && (forall b :: b in owner && owner[b].i == x && IsData(owner[b]) ==> fs'.blocks[b] == fs.blocks[b])
  }

  lemma SameExtent(fs: Fs, owner: map<nat, Slot>, fs': Fs, x: nat, hi: nat)
    requires FileKept(fs, owner, fs', x) && Extent(fs, x, hi)
    ensures Extent(fs', x, hi)
  {
    hide Word, Bit;
    forall n | 0 <= n < MAXFILE
      ensures At(fs', SlotOf(x, n)) == At(fs, SlotOf(x, n))
    {
      assert ValidSlot(fs, SlotOf(x, n)) && SlotOf(x, n).i == x;
    }
    assert ValidSlot(fs, Addr(x, NDIRECT)) && At(fs', Addr(x, NDIRECT)) == At(fs, Addr(x, NDIRECT));
  }

  lemma SameBytes(fs: Fs, owner: map<nat, Slot>, fs': Fs, owner': map<nat, Slot>, x: nat, hi: nat)
    requires Inv(fs, owner) && Inv(fs', owner') && FileKept(fs, owner, fs', x) && Extent(fs, x, hi)
    ensures Extent(fs', x, hi) && Bytes(fs', owner', x, hi) == Bytes(fs, owner, x, hi)
  {
    hide Word, Bit;
    SameExtent(fs, owner, fs', x, hi);
    forall p | 0 <= p < hi
      ensures Bytes(fs', owner', x, hi)[p] == Bytes(fs, owner, x, hi)[p]
    {
      MappedBelow(fs, owner, x, hi, p);
    }
  }

  // ------------------------------------------------- growing and writing

  /** Slot (i, bn) is mapped; at most it and the indirect address are new. */
  ghost predicate SlotsGrew(fs: Fs, fs': Fs, i: nat, bn: nat) {
    && Shape(fs) && Shape(fs') && fs'.sb == fs.sb && i < |fs.inodes| && bn < MAXFILE
    && At(fs', SlotOf(i, bn)) != 0
    && (forall s :: ValidSlot(fs, s) && At(fs, s) != 0 ==> At(fs', s) == At(fs, s))
    && (forall s :: ValidSlot(fs, s) && At(fs, s) == 0 && At(fs', s) != 0 ==>
          s == SlotOf(i, bn) || (s == Addr(i, NDIRECT) && NDIRECT <= bn))
  }

  ghost predicate DataKept(fs: Fs, owner: map<nat, Slot>, fs': Fs) {
    && Owned(fs, owner) && |fs'.blocks| == |fs.blocks|
    && (forall b :: b in owner && IsData(owner[b]) && b < |fs.blocks| ==> fs'.blocks[b] == fs.blocks[b])
    && (forall b :: 0 <= b < fs.sb.bmapstart && b < |fs.blocks| ==> fs'.blocks[b] == fs.blocks[b])
  }

  /** Every other inode is as before, and of inode `i` only addresses changed. */
  ghost predicate InodesKept(fs: Fs, fs': Fs, i: nat) {
    && |fs'.inodes| == |fs.inodes| && i < |fs.inodes|
    && (forall x :: 0 <= x < |fs.inodes| && x != i ==> fs'.inodes[x] == fs.inodes[x])
    && fs'.inodes[i] == fs.inodes[i].(addrs := fs'.inodes[i].addrs)
  }

  /** The effect of bmap(i, bn). */
  ghost predicate Grew(fs: Fs, owner: map<nat, Slot>, fs': Fs, owner': map<nat, Slot>, i: nat, bn: nat) {
    && Inv(fs, owner) && Inv(fs', owner')
    && SlotsGrew(fs, fs', i, bn) && DataKept(fs, owner, fs') && InodesKept(fs, fs', i)
  }

  lemma GrewNothing(fs: Fs, owner: map<nat, Slot>, i: nat, bn: nat)
    requires Inv(fs, owner) && i < |fs.inodes| && bn < MAXFILE && At(fs, SlotOf(i, bn)) != 0
    ensures Grew(fs, owner, fs, owner, i, bn)
  {
  }

  lemma GrewByAddr(fs: Fs, owner: map<nat, Slot>, b: nat, i: nat, k: nat)
    requires Inv(fs, owner) && fs.sb.datastart <= b < fs.sb.size && !Used(fs, b)
    requires i < |fs.inodes| && k < NDIRECT && fs.inodes[i].addrs[k] == 0
    ensures Grew(fs, owner, AssignAddr(fs, b, i, k), owner[b := Addr(i, k)], i, k)
  {
    hide Word, Bit;
    AddrAssigned(fs, owner, b, i, k);
    BBlockInBitmap(fs.sb, b);
  }

  lemma GrewByEntry(fs: Fs, owner: map<nat, Slot>, b: nat, i: nat, j: nat)
    requires Inv(fs, owner) && fs.sb.datastart <= b < fs.sb.size && !Used(fs, b)
    requires i < |fs.inodes| && j < NINDIRECT && fs.inodes[i].addrs[NDIRECT] != 0
    requires At(fs, Entry(i, j)) == 0
    ensures Grew(fs, owner, AssignEntry(fs, b, i, j), owner[b := Entry(i, j)], i, NDIRECT + j)
  {
    hide Word, Bit;
    EntryAssigned(fs, owner, b, i, j);
    BBlockInBitmap(fs.sb, b);
    assert At(fs, Addr(i, NDIRECT)) == fs.inodes[i].addrs[NDIRECT];
    InvSlot(fs, owner, Addr(i, NDIRECT));
    hide Inv;
  }

  /** The indirect block and one of its entries, both new. */
  lemma GrewByBoth(fs: Fs, owner: map<nat, Slot>, f1: Fs, b: nat, c: nat, i: nat, j: nat)
    requires Inv(fs, owner) && fs.sb.datastart <= b < fs.sb.size && !Used(fs, b)
    requires i < |fs.inodes| && j < NINDIRECT && fs.inodes[i].addrs[NDIRECT] == 0
    requires f1 == AssignAddr(fs, b, i, NDIRECT) && fs.sb.datastart <= c < fs.sb.size && !Used(f1, c)
    ensures f1.inodes[i].addrs[NDIRECT] != 0
    ensures Grew(fs, owner, AssignEntry(f1, c, i, j), owner[b := Addr(i, NDIRECT)][c := Entry(i, j)], i, NDIRECT + j)
  {
    hide Word, Bit;
    var o1 := owner[b := Addr(i, NDIRECT)];
    AddrAssigned(fs, owner, b, i, NDIRECT);
    BBlockInBitmap(fs.sb, b);
    assert ValidSlot(fs, Entry(i, j)) && At(f1, Entry(i, j)) == At(fs, Entry(i, j)) == 0;
    assert DataKept(fs, owner, f1) && InodesKept(fs, f1, i);
    GrewByEntry(f1, o1, c, i, j);
    GrewOnTop(fs, owner, f1, o1, AssignEntry(f1, c, i, j), o1[c := Entry(i, j)], b, i, j);
  }

  lemma GrewOnTop(fs: Fs, owner: map<nat, Slot>, f1: Fs, o1: map<nat, Slot>, f2: Fs, o2: map<nat, Slot>, b: nat, i: nat, j: nat)
    requires Inv(fs, owner) && i < |fs.inodes| && j < NINDIRECT && At(fs, Addr(i, NDIRECT)) == 0
    requires Assigned(fs, f1, Addr(i, NDIRECT), b) && DataKept(fs, owner, f1) && InodesKept(fs, f1, i)
    requires o1 == owner[b := Addr(i, NDIRECT)] && b !in owner && Grew(f1, o1, f2, o2, i, NDIRECT + j)
    ensures Grew(fs, owner, f2, o2, i, NDIRECT + j)
  {
    hide At, Bit, Inv;
    assert DataKept(fs, owner, f2) by {
      assert forall x :: x in owner ==> x in o1 && o1[x] == owner[x];
    }
    hide Owned, DataKept;
    forall s | ValidSlot(fs, s)
      ensures At(fs, s) != 0 ==> At(f2, s) == At(fs, s)
      ensures At(fs, s) == 0 && At(f2, s) != 0 ==> s == SlotOf(i, NDIRECT + j) || s == Addr(i, NDIRECT)
    {
      assert ValidSlot(f1, s);
    }
  }


  lemma GrewExtent(fs: Fs, owner: map<nat, Slot>, fs': Fs, owner': map<nat, Slot>, i: nat, bn: nat, hi: nat, end: nat)
    requires Grew(fs, owner, fs', owner', i, bn) && Extent(fs, i, hi)
    requires bn * BSIZE <= hi && bn * BSIZE < end <= (bn + 1) * BSIZE
    ensures Extent(fs', i, Max(hi, end))
  {
    hide Word, Bit;
    forall n | 0 <= n < MAXFILE
      ensures At(fs', SlotOf(i, n)) != 0 <==> n * BSIZE < Max(hi, end)
    {
      assert ValidSlot(fs, SlotOf(i, n));
      if n == bn {
      } else if At(fs, SlotOf(i, n)) != 0 {
      } else {
        assert At(fs', SlotOf(i, n)) == 0;
      }
    }
    assert fs'.inodes[i].addrs[NDIRECT] == At(fs', Addr(i, NDIRECT));
    if NDIRECT <= bn {
      assert SlotOf(i, bn).Entry?;
    } else {
      assert ValidSlot(fs, Addr(i, NDIRECT));
      assert fs'.inodes[i].addrs[NDIRECT] == fs.inodes[i].addrs[NDIRECT];
    }
  }

  lemma GrewOther(fs: Fs, owner: map<nat, Slot>, fs': Fs, owner': map<nat, Slot>, i: nat, bn: nat, x: nat, hi: nat)
    requires Grew(fs, owner, fs', owner', i, bn) && Extent(fs, x, hi) && x != i
    ensures Extent(fs', x, hi) && Bytes(fs', owner', x, hi) == Bytes(fs, owner, x, hi)
  {
    hide Word, Bit;
    SameBytes(fs, owner, fs', owner', x, hi);
  }

  /** A block with `chunk` copied in at byte `o`. */
  function Store(b: Block, o: nat, chunk: seq<Byte>): (r: Block)
    requires o + |chunk| <= BSIZE
  {
    b[..o] + chunk + b[o + |chunk|..]
  }

  /** A byte sequence overwritten from `off` on, growing if need be. */
  function Splice(c: seq<Byte>, off: nat, s: seq<Byte>): (r: seq<Byte>)
    requires off <= |c|
    ensures |r| == Max(|c|, off + |s|)
  {
    c[..off] + s + if off + |s| < |c| then c[off + |s|..] else []
  }

  lemma SpliceOn(c: seq<Byte>, off: nat, s: seq<Byte>, t: seq<Byte>)
    requires off <= |c|
    ensures Splice(Splice(c, off, s), off + |s|, t) == Splice(c, off, s + t)
  {
  }

  /** The state with `chunk` stored in the block that holds byte `off`. */
  function StoreChunk(fs: Fs, i: nat, off: nat, chunk: seq<Byte>): (w: Fs)
    requires Shape(fs) && i < |fs.inodes| && off / BSIZE < MAXFILE && off % BSIZE + |chunk| <= BSIZE
    requires At(fs, SlotOf(i, off / BSIZE)) < fs.sb.size
  {
    var a := At(fs, SlotOf(i, off / BSIZE));
    fs.(blocks := fs.blocks[a := Store(fs.blocks[a], off % BSIZE, chunk)])
  }

  lemma ChunkStored(fs: Fs, owner: map<nat, Slot>, i: nat, off: nat, chunk: seq<Byte>, end: nat)
    requires Inv(fs, owner) && Extent(fs, i, end) && off < end && off % BSIZE + |chunk| <= BSIZE
    ensures var a := At(fs, SlotOf(i, off / BSIZE)); a in owner && IsData(owner[a]) && a < fs.sb.size
    ensures var w := StoreChunk(fs, i, off, chunk);
            && Inv(w, owner) && Extent(w, i, end)
            && forall s :: ValidSlot(fs, s) ==> At(w, s) == At(fs, s)
  {
    hide Word, Bit;
    var a := At(fs, SlotOf(i, off / BSIZE));
    MappedBelow(fs, owner, i, end, off);
    var w := StoreChunk(fs, i, off, chunk);
    DataWritten(fs, owner, a, Store(fs.blocks[a], off % BSIZE, chunk));
    forall n | 0 <= n < MAXFILE
      ensures At(w, SlotOf(i, n)) == At(fs, SlotOf(i, n))
    {
      assert ValidSlot(fs, SlotOf(i, n));
    }
  }

  /** One round of writei's loop splices its chunk into the file's bytes. */
  lemma ChunkWritten(fs: Fs, owner: map<nat, Slot>, fs': Fs, owner': map<nat, Slot>,
                     i: nat, hi: nat, off: nat, chunk: seq<Byte>)
    requires Grew(fs, owner, fs', owner', i, off / BSIZE) && Extent(fs, i, hi)
    requires off <= hi && 0 < |chunk| <= BSIZE - off % BSIZE
    ensures At(fs', SlotOf(i, off / BSIZE)) < fs.sb.size
    ensures var w, end := StoreChunk(fs', i, off, chunk), Max(hi, off + |chunk|);
            && Inv(w, owner') && Extent(w, i, end)
            && Bytes(w, owner', i, end) == Splice(Bytes(fs, owner, i, hi), off, chunk)
  {
    hide Word, Bit;
    var end := Max(hi, off + |chunk|);
    GrewExtent(fs, owner, fs', owner', i, off / BSIZE, hi, off + |chunk|);
    ChunkStored(fs', owner', i, off, chunk, end);
    var w := StoreChunk(fs', i, off, chunk);
    var written, spliced := Bytes(w, owner', i, end), Splice(Bytes(fs, owner, i, hi), off, chunk);
    forall p | 0 <= p < end
      ensures written[p] == spliced[p]
    {
      MappedBelow(w, owner', i, end, p);
      ChunkByte(fs, owner, fs', owner', i, hi, off, chunk, p);
    }
  }

  lemma ChunkByte(fs: Fs, owner: map<nat, Slot>, fs': Fs, owner': map<nat, Slot>,
                  i: nat, hi: nat, off: nat, chunk: seq<Byte>, p: nat)
    requires Grew(fs, owner, fs', owner', i, off / BSIZE) && Extent(fs, i, hi)
    requires off <= hi && 0 < |chunk| <= BSIZE - off % BSIZE && p < Max(hi, off + |chunk|) <= MAXBYTES
    requires At(fs', SlotOf(i, off / BSIZE)) < fs.sb.size
    ensures var q, a := At(fs', SlotOf(i, p / BSIZE)), At(fs', SlotOf(i, off / BSIZE));
            && q < fs.sb.size && (q == a <==> p / BSIZE == off / BSIZE)
            && Splice(Bytes(fs, owner, i, hi), off, chunk)[p] ==
               (if q == a then Store(fs'.blocks[a], off % BSIZE, chunk) else fs'.blocks[q])[p % BSIZE]
  {
    hide Word, Bit;
    SpliceAt(Bytes(fs, owner, i, hi), off, chunk, p);
    StoreAt(fs'.blocks[At(fs', SlotOf(i, off / BSIZE))], off % BSIZE, chunk, p % BSIZE);
    Coordinates(off, |chunk|, p);
    if p < hi {
      MappedBelow(fs, owner, i, hi, p);
      KeptByte(fs, owner, fs', owner', i, off / BSIZE, p / BSIZE);
    }
  }

  /** Storing a chunk in one file changes no byte of another. */
  lemma StoredOther(fs: Fs, owner: map<nat, Slot>, i: nat, off: nat, chunk: seq<Byte>, end: nat, x: nat, hi: nat)
    requires Inv(fs, owner) && Extent(fs, i, end) && off < end && off % BSIZE + |chunk| <= BSIZE
    requires Extent(fs, x, hi) && x != i
    requires At(fs, SlotOf(i, off / BSIZE)) < fs.sb.size && Inv(StoreChunk(fs, i, off, chunk), owner)
    ensures Extent(StoreChunk(fs, i, off, chunk), x, hi)
    ensures Bytes(StoreChunk(fs, i, off, chunk), owner, x, hi) == Bytes(fs, owner, x, hi)
  {
    hide Word, Bit;
    var w, a := StoreChunk(fs, i, off, chunk), At(fs, SlotOf(i, off / BSIZE));
    ChunkStored(fs, owner, i, off, chunk, end);
    MappedBelow(fs, owner, i, end, off);
    SameBytes(fs, owner, w, owner, x, hi);
  }

  lemma Coordinates(off: nat, m: nat, p: nat)
    requires 0 < m <= BSIZE - off % BSIZE
    ensures p / BSIZE == off / BSIZE ==> p - off == p % BSIZE - off % BSIZE
    ensures p / BSIZE != off / BSIZE ==> p < off || off + m <= p
  {
  }

  lemma StoreAt(b: Block, o: nat, chunk: seq<Byte>, r: nat)
    requires o + |chunk| <= BSIZE && r < BSIZE
    ensures Store(b, o, chunk)[r] == if o <= r < o + |chunk| then chunk[r - o] else b[r]
  {
  }

  lemma SpliceAt(c: seq<Byte>, off: nat, s: seq<Byte>, p: nat)
    requires off <= |c| && p < Max(|c|, off + |s|)
    ensures Splice(c, off, s)[p] == if off <= p < off + |s| then s[p - off] else c[p]
  {
  }

  /** A block mapped before stays mapped, keeps its bytes, and differs from the
      block of any other slot. */
  lemma KeptByte(fs: Fs, owner: map<nat, Slot>, fs': Fs, owner': map<nat, Slot>, i: nat, bn: nat, n: nat)
    requires Grew(fs, owner, fs', owner', i, bn) && n < MAXFILE && At(fs, SlotOf(i, n)) != 0
    ensures var q := At(fs, SlotOf(i, n));
            && At(fs', SlotOf(i, n)) == q && q < fs.sb.size && fs'.blocks[q] == fs.blocks[q]
            && (n != bn ==> q != At(fs', SlotOf(i, bn)))
  {
    hide Word, Bit;
    assert ValidSlot(fs, SlotOf(i, n)) && ValidSlot(fs', SlotOf(i, bn)) && ValidSlot(fs', SlotOf(i, n));
    hide At;
    var q := At(fs, SlotOf(i, n));
    InvSlot(fs, owner, SlotOf(i, n));
    InvSlot(fs', owner', SlotOf(i, n));
    assert owner[q] == SlotOf(i, n) && IsData(owner[q]) && BlockOk(fs, owner, q);
    if n != bn {
      assert SlotOf(i, n) != SlotOf(i, bn);
      assert owner'[q] == SlotOf(i, n);
      assert SlotOk(fs', owner', SlotOf(i, bn));
    }
  }

  // ------------------------------------------------------------ truncating

  /** The ownership map without the blocks of inode `i`. */
  ghost function Without(owner: map<nat, Slot>, i: nat): (r: map<nat, Slot>) {
    map b | b in owner && owner[b].i != i :: owner[b]
  }

  /** One direct block of inode `i` freed and its address cleared. */
  function FreeAddr(fs: Fs, i: nat, k: nat): (r: Fs)
    requires Shape(fs) && i < |fs.inodes| && k <= NDIRECT
    requires fs.inodes[i].addrs[k] != 0 && AddrOk(fs.sb, fs.inodes[i].addrs[k]) && Used(fs, fs.inodes[i].addrs[k])
    ensures Shape(r)
  {
    var m := Mark(fs, fs.inodes[i].addrs[k], false);
    m.(inodes := m.inodes[i := m.inodes[i].(addrs := m.inodes[i].addrs[k := 0])])
  }

  lemma AddrFreed(fs: Fs, owner: map<nat, Slot>, i: nat, k: nat)
    requires Inv(fs, owner) && i < |fs.inodes| && k < NDIRECT && fs.inodes[i].addrs[k] != 0
    ensures AddrOk(fs.sb, fs.inodes[i].addrs[k]) && Used(fs, fs.inodes[i].addrs[k])
    ensures Inv(FreeAddr(fs, i, k), owner - {fs.inodes[i].addrs[k]})
  {
    hide Word, Bit;
    var b := fs.inodes[i].addrs[k];
    assert At(fs, Addr(i, k)) == b;
    InvSlot(fs, owner, Addr(i, k));
    assert AddrOk(fs.sb, b);
    var fs', owner' := FreeAddr(fs, i, k), owner - {b};
    AddrFreedAt(fs, owner, i, k);
    forall s | ValidSlot(fs', s) && At(fs', s) != 0
      ensures At(fs', s) in owner' && owner'[At(fs', s)] == s
    {
      assert ValidSlot(fs, s) && SlotOk(fs, owner, s);
    }
    forall c | c in owner'
      ensures fs'.sb.datastart <= c < fs'.sb.size && ValidSlot(fs', owner'[c]) && At(fs', owner'[c]) == c
    {
      assert BlockOk(fs, owner, c);
    }
    OwnedIntro(fs', owner');
    forall c | 0 <= c < fs.sb.size
      ensures Used(fs', c) <==> c < fs.sb.datastart || c in owner'
    {
      UsedAfterMark(fs, b, false, c);
      SameBitmap(Mark(fs, b, false), fs', c);
    }
  }

  lemma AddrFreedAt(fs: Fs, owner: map<nat, Slot>, i: nat, k: nat)
    requires Owned(fs, owner) && i < |fs.inodes| && k < NDIRECT
    requires fs.inodes[i].addrs[k] != 0 && AddrOk(fs.sb, fs.inodes[i].addrs[k]) && Used(fs, fs.inodes[i].addrs[k])
    ensures Assigned(fs, FreeAddr(fs, i, k), Addr(i, k), 0)
  {
    hide Word, Bit;
    var fs', b := FreeAddr(fs, i, k), fs.inodes[i].addrs[k];
    BBlockInBitmap(fs.sb, b);
    OwnedByData(fs, Mark(fs, b, false), owner);
    forall s | ValidSlot(fs, s)
      ensures At(fs', s) == if s == Addr(i, k) then 0 else At(fs, s)
    {
      assert At(Mark(fs, b, false), s) == At(fs, s);
    }
  }

  /** Inode `i` with nothing mapped and size 0, everything else as in `fs`. */
  ghost predicate Emptied(fs: Fs, fs': Fs, i: nat) {
    && Shape(fs) && Shape(fs') && fs'.sb == fs.sb && i < |fs.inodes|
    && (forall x :: 0 <= x < |fs.inodes| && x != i ==> fs'.inodes[x] == fs.inodes[x])
    && (forall k :: 0 <= k <= NDIRECT ==> fs'.inodes[i].addrs[k] == 0)
    && (forall b :: fs.sb.datastart <= b < fs.sb.size ==> fs'.blocks[b] == fs.blocks[b])
  }

  lemma EmptiedOwned(fs: Fs, fs': Fs, owner: map<nat, Slot>, i: nat)
    requires Owned(fs, owner) && Emptied(fs, fs', i)
    ensures Owned(fs', Without(owner, i))
    ensures forall s :: ValidSlot(fs, s) ==> At(fs', s) == if s.i == i then 0 else At(fs, s)
  {
    hide Word, Bit;
    forall s | ValidSlot(fs, s)
      ensures At(fs', s) == if s.i == i then 0 else At(fs, s)
    {
      if s.Entry? && s.i != i && fs.inodes[s.i].addrs[NDIRECT] != 0 {
        assert AddrOk(fs.sb, fs.inodes[s.i].addrs[NDIRECT]);
      }
    }
    hide At;
    forall s | ValidSlot(fs', s) && At(fs', s) != 0
      ensures At(fs', s) in Without(owner, i) && Without(owner, i)[At(fs', s)] == s
    {
      assert SlotOk(fs, owner, s);
    }
    forall b | b in Without(owner, i)
      ensures fs'.sb.datastart <= b < fs'.sb.size && ValidSlot(fs', Without(owner, i)[b]) && At(fs', Without(owner, i)[b]) == b
    {
      assert BlockOk(fs, owner, b);
    }
    OwnedIntro(fs', Without(owner, i));
  }

  /** Emptying one inode leaves every other file's bytes alone. */
  lemma EmptiedOther(fs: Fs, owner: map<nat, Slot>, fs': Fs, i: nat, x: nat, hi: nat)
    requires Inv(fs, owner) && Emptied(fs, fs', i) && Inv(fs', Without(owner, i))
    requires Extent(fs, x, hi) && x != i
    ensures Extent(fs', x, hi) && Bytes(fs', Without(owner, i), x, hi) == Bytes(fs, owner, x, hi)
  {
    hide Word, Bit;
    EmptiedOwned(fs, fs', owner, i);
    SameBytes(fs, owner, fs', Without(owner, i), x, hi);
  }

  lemma EmptiedSelf(fs: Fs, fs': Fs, i: nat)
    requires Emptied(fs, fs', i)
    ensures Extent(fs', i, 0)
  {
    forall n | 0 <= n < MAXFILE
      ensures At(fs', SlotOf(i, n)) == 0
    {
    }
  }

  // ------------------------------------------------------- on-disk inodes

  /** The sixteen words of a dinode. */
  function InodeWords(ip: Inode): seq<nat> {
    [ip.typ + 0x1_0000 * ip.major, ip.minor + 0x1_0000 * ip.nlink, ip.size] + ip.addrs
  }

  predicate FieldsOk(ip: Inode) {
    && ip.typ < 0x1_0000 && ip.major < 0x1_0000 && ip.minor < 0x1_0000 && ip.nlink < 0x1_0000
    && ip.size < WORD_LIMIT && |ip.addrs| == NDIRECT + 1
  }

  function DecodeWords(ws: seq<nat>): (ip: Inode)
    requires |ws| == 16
  {
    Inode(ws[0] % 0x1_0000, ws[0] / 0x1_0000, ws[1] % 0x1_0000, ws[1] / 0x1_0000, ws[2], ws[3..])
  }

  lemma WordsRoundTrip(ip: Inode)
    requires FieldsOk(ip)
    ensures |InodeWords(ip)| == 16 && DecodeWords(InodeWords(ip)) == ip
  {
    assert InodeWords(ip)[3..] == ip.addrs;
  }

  /** The `slot`-th dinode of an inode block. */
  function DecodeInode(b: Block, slot: nat): (ip: Inode)
    requires slot < IPB
  {
    DecodeWords(WordsFrom(b, 16 * slot, 16))
  }

  function WordsFrom(b: Block, at: nat, n: nat): (ws: seq<nat>)
    requires at + n <= WORDS
    ensures |ws| == n && forall k :: 0 <= k < n ==> ws[k] == Word(b, at + k)
  {
    if n == 0 then [] else WordsFrom(b, at, n - 1) + [Word(b, at + n - 1)]
  }

  /** An inode block with `ip` stored in its `slot`-th dinode. */
  function PutInode(b: Block, slot: nat, ip: Inode): (r: Block)
    requires slot < IPB && FieldsOk(ip) && forall k :: 0 <= k < |ip.addrs| ==> ip.addrs[k] < WORD_LIMIT
  {
    PutWords(b, 16 * slot, InodeWords(ip), 16)
  }

  /** Encoding an inode into its slot and decoding gives it back; the other
      slots of the block decode as before. */
  lemma InodeRoundTrip(b: Block, slot: nat, ip: Inode, t: nat)
    requires slot < IPB && FieldsOk(ip) && forall k :: 0 <= k < |ip.addrs| ==> ip.addrs[k] < WORD_LIMIT
    requires t < IPB
    ensures DecodeInode(PutInode(b, slot, ip), t) == if t == slot then ip else DecodeInode(b, t)
  {
    var ws := InodeWords(ip);
    var b' := PutInode(b, slot, ip);
    WordsOfPutWords(b, 16 * slot, ws, 16);
    if t == slot {
      WordsRoundTrip(ip);
      assert WordsFrom(b', 16 * slot, 16) == ws;
    } else {
      assert WordsFrom(b', 16 * t, 16) == WordsFrom(b, 16 * t, 16);
    }
  }

  /** The inode stored on disk under number `i`. */
  function OnDisk(fs: Fs, i: nat): (ip: Inode)
    requires Shape(fs) && i < |fs.inodes|
  {
    DecodeInode(fs.blocks[IBlock(fs.sb, i)], i % IPB)
  }

  /** The disk copy of inode `i` is the in-core one. */
  predicate Synced(fs: Fs, i: nat)
    requires Shape(fs) && i < |fs.inodes|
  {
    OnDisk(fs, i) == fs.inodes[i]
  }

  /** iupdate: the in-core inode copied to its slot of the inode block. */
  function Iupdated(fs: Fs, i: nat): (r: Fs)
    requires Shape(fs) && i < |fs.inodes| && FieldsOk(fs.inodes[i])
    ensures Shape(r) && r.sb == fs.sb && r.inodes == fs.inodes
    ensures forall b :: 0 <= b < fs.sb.size && b != IBlock(fs.sb, i) ==> r.blocks[b] == fs.blocks[b]
  {
    var ib := IBlock(fs.sb, i);
    assert forall k :: 0 <= k <= NDIRECT ==> AddrOk(fs.sb, fs.inodes[i].addrs[k]);
    fs.(blocks := fs.blocks[ib := PutInode(fs.blocks[ib], i % IPB, fs.inodes[i])])
  }

  lemma SyncedByIupdate(fs: Fs, i: nat, x: nat)
    requires Shape(fs) && i < |fs.inodes| && FieldsOk(fs.inodes[i]) && x < |fs.inodes|
    ensures OnDisk(Iupdated(fs, i), x) == if x == i then fs.inodes[i] else OnDisk(fs, x)
  {
    assert forall k :: 0 <= k <= NDIRECT ==> AddrOk(fs.sb, fs.inodes[i].addrs[k]);
    var b, b' := fs.blocks[IBlock(fs.sb, x)], Iupdated(fs, i).blocks[IBlock(fs.sb, x)];
    assert x / IPB == i / IPB ==> b' == PutInode(b, i % IPB, fs.inodes[i]);
    InodeRoundTrip(b, i % IPB, fs.inodes[i], x % IPB);
    SameSlotSameInode(x, i);
    assert x / IPB != i / IPB ==> b' == b;
    assert DecodeInode(b', x % IPB) == if x == i then fs.inodes[i] else DecodeInode(b, x % IPB);
  }

  lemma SameSlotSameInode(x: nat, i: nat)
    ensures x / IPB == i / IPB && x % IPB == i % IPB ==> x == i
  {
  }

  lemma IBlockInTable(sb: Super, i: nat)
    requires ValidSuper(sb) && i < sb.ninodes
    ensures sb.inodestart <= IBlock(sb, i) < sb.bmapstart
  {
  }

  lemma SameOnDisk(fs: Fs, fs': Fs, i: nat)
    requires Shape(fs) && Shape(fs') && fs'.sb == fs.sb && i < |fs.inodes|
    requires forall b :: 0 <= b < fs.sb.bmapstart ==> fs'.blocks[b] == fs.blocks[b]
    ensures OnDisk(fs', i) == OnDisk(fs, i)
  {
    IBlockInTable(fs.sb, i);
  }

  lemma IupdateInv(fs: Fs, owner: map<nat, Slot>, i: nat)
    requires Inv(fs, owner) && i < |fs.inodes| && FieldsOk(fs.inodes[i])
    ensures Inv(Iupdated(fs, i), owner)
    ensures forall s :: ValidSlot(fs, s) ==> At(Iupdated(fs, i), s) == At(fs, s)
  {
    hide Word, PutInode, Bit;
    var fs' := Iupdated(fs, i);
    IBlockInTable(fs.sb, i);
    OwnedByData(fs, fs', owner);
    forall c | 0 <= c < fs.sb.size
      ensures Used(fs', c) == Used(fs, c)
    {
      SameBitmap(fs, fs', c);
    }
  }

  lemma FileKeptByData(fs: Fs, owner: map<nat, Slot>, fs': Fs, x: nat)
    requires Owned(fs, owner)
    requires fs'.sb == fs.sb && fs'.inodes == fs.inodes && |fs'.blocks| == |fs.blocks|
    requires forall b :: fs.sb.datastart <= b < fs.sb.size ==> fs'.blocks[b] == fs.blocks[b]
    ensures FileKept(fs, owner, fs', x)
  {
    hide Word;
    OwnedByData(fs, fs', owner);
  }

  /** iupdate touches no slot, no bit and no file byte. */
  lemma IupdateKeeps(fs: Fs, owner: map<nat, Slot>, i: nat)
    requires Inv(fs, owner) && i < |fs.inodes| && FieldsOk(fs.inodes[i])
    ensures Inv(Iupdated(fs, i), owner)
    ensures forall x, hi :: Extent(fs, x, hi) ==>
              Extent(Iupdated(fs, i), x, hi) && Bytes(Iupdated(fs, i), owner, x, hi) == Bytes(fs, owner, x, hi)
  {
    IupdateInv(fs, owner, i);
    IBlockInTable(fs.sb, i);
    var fs' := Iupdated(fs, i);
    assert forall b :: fs.sb.datastart <= b < fs.sb.size ==> fs'.blocks[b] == fs.blocks[b];
    forall x, hi | Extent(fs, x, hi)
      ensures Extent(Iupdated(fs, i), x, hi) && Bytes(Iupdated(fs, i), owner, x, hi) == Bytes(fs, owner, x, hi)
    {
      hide Owned, BitsOk, Extent, FileKept, Bytes, At, Iupdated;
      FileKeptByData(fs, owner, fs', x);
      SameBytes(fs, owner, fs', owner, x, hi);
    }
  }

  // ------------------------------------------------ a file system to start from

  const NOINODE: Inode := Inode(0, 0, 0, 0, 0, seq(NDIRECT + 1, i => 0))

  lemma Blank(sb: Super) returns (fs: Fs)
    requires ValidSuper(sb)
    ensures Shape(fs) && fs.sb == sb && fs.inodes == seq(sb.ninodes, i => NOINODE)
    ensures forall c :: 0 <= c < sb.size ==> !Used(fs, c)
  {
    fs := Fs(sb, seq(sb.size, i => ZeroBlock()), seq(sb.ninodes, i => NOINODE));
    hide Bit, ZeroBlock;
    forall c | 0 <= c < sb.size
      ensures !Used(fs, c)
    {
      BBlockInBitmap(sb, c);
      ZeroBit(c % BPB);
    }
  }

  lemma ZeroBit(k: nat)
    requires k < BPB
    ensures !Bit(ZeroBlock(), k)
  {
    assert ZeroBlock()[k / 8] == 0;
    ZeroByte(k % 8);
  }

  lemma ZeroByte(k: nat)
    ensures !ByteBit(0, k)
  {
    if k > 0 {
      ZeroByte(k - 1);
    }
  }

  /** A disk of zeros with the first `k` blocks marked used. */
  lemma {:induction false} Formatted(sb: Super, k: nat) returns (fs: Fs)
    requires ValidSuper(sb) && k <= sb.datastart
    ensures Shape(fs) && fs.sb == sb && fs.inodes == seq(sb.ninodes, i => NOINODE)
    ensures forall c :: 0 <= c < sb.size ==> (Used(fs, c) <==> c < k)
  {
    hide Used, Mark;
    if k == 0 {
      fs := Blank(sb);
    } else {
      var m := Formatted(sb, k - 1);
      fs := Mark(m, k - 1, true);
      forall c | 0 <= c < sb.size
        ensures Used(fs, c) <==> c < k
      {
        UsedAfterMark(m, k - 1, true, c);
      }
    }
  }

  /** Every layout has a file system without files that meets the invariant. */
  lemma FreshFileSystem(sb: Super) returns (fs: Fs)
    requires ValidSuper(sb)
    ensures fs.sb == sb && Inv(fs, map[])
    ensures forall i :: 0 <= i < |fs.inodes| ==> Extent(fs, i, 0) && FieldsOk(fs.inodes[i])
  {
    fs := Formatted(sb, sb.datastart);
    hide Used, Word;
    forall s | ValidSlot(fs, s)
      ensures At(fs, s) == 0
    {
      assert fs.inodes[s.i] == NOINODE;
    }
  }
}
