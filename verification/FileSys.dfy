/** fs.c and the write path of file.c, updating blocks and in-core inodes in
    place: block allocation, block mapping, truncation, reading and writing. */
module FileSys {
  import opened Common
  import opened Blocks
  import opened FsState
  import LogOps

  const T_DEV: nat := 3

  /** Result of readi/writei: -1, a transfer handed to the device switch, or a count. */
  datatype Io = Failed | Device | Count(n: nat)


  lemma InBitmapBlock(b: nat, bi: nat)
    requires b % BPB == 0 && bi < BPB
    ensures (b + bi) / BPB == b / BPB && (b + bi) % BPB == bi
  {
  }

  lemma UnionSize<T>(a: set<T>, b: set<T>)
    ensures |a + b| <= |a| + |b|
  {
    assert |a + b| + |a * b| == |a| + |b|;
  }

  /** Bitmap blocks of the file system. */
  ghost predicate InBitmap(sb: Super, x: nat) {
    sb.bmapstart <= x && (x - sb.bmapstart) * BPB < sb.size
  }

  /** Only blocks in `log` differ, and those hold inodes, bitmap or data. */
  ghost predicate Changed(sb: Super, d: Disk, d': Disk, log: set<nat>) {
    && |d'| == |d| && (forall b :: b in log ==> sb.inodestart <= b < |d|)
    && forall b :: 0 <= b < |d| && b !in log ==> d'[b] == d[b]
  }

  datatype Snapshot = Snapshot(fs: Fs, owner: map<nat, Slot>)

  /** The states that a filewrite of `data` goes through, one operation at a time: by
      the `c`-th, `c` chunks have been written, or all `k` bytes that ever will be. */
  ghost predicate Trail(states: seq<Snapshot>, ops: seq<set<nat>>, i: nat, off0: nat, data: seq<Byte>, k: nat) {
    && |states| == |ops| + 1
    && (forall c :: 0 <= c < |states| ==>
          Progress(states[0].fs, states[0].owner, states[c].fs, states[c].owner, i, off0, data, Min(c * CHUNK, k)))
    && (forall c :: 0 <= c < |states| ==> states[c].fs.sb == states[0].fs.sb)
    && forall c :: 0 <= c < |ops| ==> Changed(states[0].fs.sb, states[c].fs.blocks, states[c + 1].fs.blocks, ops[c])
  }

  lemma TrailStart(fs: Fs, owner: map<nat, Slot>, i: nat, off0: nat, data: seq<Byte>)
    requires Progress(fs, owner, fs, owner, i, off0, data, 0)
    ensures Trail([Snapshot(fs, owner)], [], i, off0, data, 0)
  {
    hide Progress;
  }

  lemma TrailNext(states: seq<Snapshot>, ops: seq<set<nat>>, i: nat, off0: nat, data: seq<Byte>, k: nat, k': nat,
                  s: Snapshot, log: set<nat>)
    requires Trail(states, ops, i, off0, data, k) && Whole(k, |ops|) && k <= k' <= k + CHUNK
    requires Progress(states[0].fs, states[0].owner, s.fs, s.owner, i, off0, data, k')
    requires s.fs.sb == states[0].fs.sb && Changed(s.fs.sb, states[|ops|].fs.blocks, s.fs.blocks, log)
    ensures Trail(states + [s], ops + [log], i, off0, data, k')
  {
    hide Progress, Changed;
    var states', ops' := states + [s], ops + [log];
    forall c | 0 <= c < |states'|
      ensures Progress(states'[0].fs, states'[0].owner, states'[c].fs, states'[c].owner, i, off0, data, Min(c * CHUNK, k'))
    {
      if c < |states| {
        assert Min(c * CHUNK, k') == c * CHUNK == Min(c * CHUNK, k);
      }
    }
    forall c | 0 <= c < |ops'|
      ensures Changed(states'[0].fs.sb, states'[c].fs.blocks, states'[c + 1].fs.blocks, ops'[c])
    {
      if c < |ops| {
        assert states'[c + 1] == states[c + 1];
      }
    }
  }

  /** Call `c` of a device's write function for `n` bytes takes its whole chunk. */
  predicate Accepted(dev: (nat, nat) -> int, n: int, c: nat) {
    c * CHUNK < n && dev(c, Min(n - c * CHUNK, CHUNK)) == Min(n - c * CHUNK, CHUNK)
  }

  /** filewrite to a device: `c` chunks are accepted in full. Then either these were
      all, or the next call fails (-1), or it is short, where the source panics. */
  predicate DeviceWrote(dev: (nat, nat) -> int, off0: nat, n: int, c: nat, ok: bool, r: int, off: nat) {
    && (forall x :: 0 <= x < c ==> Accepted(dev, n, x))
    && if c * CHUNK >= n then
         ok && off == off0 + (if n < 0 then 0 else n) && r == if n < 0 then -1 else n
       else
         var m := dev(c, Min(n - c * CHUNK, CHUNK));
         && !Accepted(dev, n, c) && (ok <==> m < 0) && r == -1 && off == off0 + c * CHUNK + Max(m, 0)
  }

  class FileSystem {
    const sb: Super
    var blocks: Disk
    var inodes: seq<Inode>
    /** which slot holds each data block */
    ghost var owner: map<nat, Slot>
    /** the distinct blocks logged by the current operation, and what the blocks
        were when it began */
    ghost var logged: set<nat>
    ghost var base: Disk

    ghost function View(): Fs
      reads this
    {
      Fs(sb, blocks, inodes)
    }

    ghost predicate Valid()
      reads this
    {
      Inv(View(), owner) && (forall i :: 0 <= i < |inodes| ==> FieldsOk(inodes[i])) && Journaled()
    }

    /** Nothing changed that was not logged, and nothing below the inodes was. */
    ghost predicate Journaled()
      reads this
    {
      Changed(sb, base, blocks, logged)
    }

    constructor (fs: Fs, ghost owner: map<nat, Slot>)
      requires Inv(fs, owner) && forall i :: 0 <= i < |fs.inodes| ==> FieldsOk(fs.inodes[i])
      ensures Valid() && View() == fs && this.owner == owner && logged == {}
    {
      sb, blocks, inodes := fs.sb, fs.blocks, fs.inodes;
      this.owner, logged, base := owner, {}, fs.blocks;
    }

    method LogWrite(b: nat, data: Block)
      requires sb.inodestart <= b < |blocks|
      modifies this`blocks, this`logged
      ensures blocks == old(blocks)[b := data] && logged == old(logged) + {b}
      ensures old(Journaled()) ==> Journaled()
    {
      blocks := blocks[b := data];
      logged := logged + {b};
    }

    /** balloc's inner loop: the first clear bit of the bitmap block of `b`. */
    method ScanBitmapBlock(b: nat) returns (bi: nat)
      requires Shape(View()) && b < sb.size && b % BPB == 0
      ensures bi <= BPB
      ensures forall c :: b <= c < b + bi && c < sb.size ==> Used(View(), c)
      ensures bi < BPB && b + bi < sb.size ==> !Used(View(), b + bi)
    {
      BBlockInBitmap(sb, b);
      var bp := blocks[BBlock(sb, b)];
      bi := 0;
      while bi < BPB && b + bi < sb.size && Bit(bp, bi)
        invariant 0 <= bi <= BPB
        invariant forall c :: b <= c < b + bi && c < sb.size ==> Used(View(), c)
      {
        InBitmapBlock(b, bi);
        bi := bi + 1;
      }
      if bi < BPB {
        InBitmapBlock(b, bi);
      }
    }

    /** balloc's scan, bitmap block by bitmap block: the lowest free block. */
    method FindFree() returns (ok: bool, r: nat)
      requires Shape(View())
      ensures ok ==> r < sb.size && !Used(View(), r) && forall c :: 0 <= c < r ==> Used(View(), c)
      ensures !ok ==> forall c :: 0 <= c < sb.size ==> Used(View(), c)
    {
      hide Used;
      var b := 0;
      while b < sb.size
        invariant b % BPB == 0
        invariant forall c :: 0 <= c < b && c < sb.size ==> Used(View(), c)
        decreases sb.size - b
      {
        var bi := ScanBitmapBlock(b);
        if bi < BPB && b + bi < sb.size {
          return true, b + bi;
        }
        b := b + BPB;
      }
      return false, 0;
    }

    /** First fit: the lowest free block, marked used and zeroed. `ok` is false
        where the source panics, and then every block is used. */
    method Balloc() returns (ok: bool, r: nat)
      requires Valid()
      modifies this`blocks, this`logged
      ensures ok <==> Room(old(View())) > 0
      ensures !ok ==> View() == old(View()) && forall c :: 0 <= c < sb.size ==> Used(View(), c)
      ensures Journaled()
      ensures ok ==> sb.datastart <= r < sb.size && !Used(old(View()), r)
      ensures ok ==> forall c :: 0 <= c < r ==> Used(old(View()), c)
      ensures ok ==> View() == Alloc(old(View()), r)
      ensures ok ==> logged == old(logged) + {BBlock(sb, r), r} && InBitmap(sb, BBlock(sb, r))
    {
      hide Changed, Inv, Bit, ZeroBlock, FreeBlocks, Alloc, Used;
      InvShape(View(), owner);
      ok, r := FindFree();
      NoRoom(View());
      if ok {
        BBlockInBitmap(sb, r);
        NotOwned(View(), owner, r);
        AllocSteps(View(), r);
        var bb := BBlock(sb, r);
        LogWrite(bb, FlipBit(blocks[bb], r % BPB, true));
        LogWrite(r, ZeroBlock());
      }
    }

    /** `ok` is false where the source panics: freeing a free block. */
    method Bfree(b: nat) returns (ok: bool)
      requires Shape(View()) && b < sb.size
      modifies this`blocks, this`logged
      ensures ok <==> Used(old(View()), b)
      ensures old(Journaled()) ==> Journaled()
      ensures ok ==> View() == Mark(old(View()), b, false)
      ensures !ok ==> View() == old(View())
    {
      hide Changed;
      BBlockInBitmap(sb, b);
      var bp := blocks[BBlock(sb, b)];
      var bi := b % BPB;
      if !Bit(bp, bi) {
        return false;
      }
      LogWrite(BBlock(sb, b), FlipBit(bp, bi, false));
      return true;
    }

    /** The block of file block `bn`, allocated if missing. `bits` is the bitmap
        blocks this logs. `ok` is false where the source panics. */
    method Bmap(i: nat, bn: nat) returns (ok: bool, addr: nat, ghost bits: set<nat>)
      requires Valid() && i < |inodes|
      modifies this`blocks, this`inodes, this`owner, this`logged
      ensures ok <==> bn < MAXFILE && Room(old(View())) >= Need(old(View()), i, bn)
      ensures ok ==> Room(View()) == Room(old(View())) - Need(old(View()), i, bn)
      ensures !ok ==> bn >= MAXFILE || (Shape(View()) && forall c :: 0 <= c < sb.size ==> Used(View(), c))
      ensures ok ==> bn < MAXFILE && Valid() && Grew(old(View()), old(owner), View(), owner, i, bn)
      ensures ok ==> addr == At(View(), SlotOf(i, bn)) && addr in owner
      ensures ok && At(old(View()), SlotOf(i, bn)) == 0 ==> addr < |blocks| && blocks[addr] == ZeroBlock()
      ensures bn < MAXFILE && At(old(View()), SlotOf(i, bn)) != 0 ==> ok && View() == old(View()) && owner == old(owner)
      ensures ok ==> logged <= old(logged) + {addr} + bits +
                     (if NDIRECT <= bn then {inodes[i].addrs[NDIRECT]} else {})
      ensures ok ==> |bits| <= (if At(old(View()), SlotOf(i, bn)) == 0 then 1 else 0) +
                               (if NDIRECT <= bn && old(inodes[i].addrs[NDIRECT]) == 0 then 1 else 0)
      ensures ok ==> forall x :: x in bits ==> InBitmap(sb, x)
    {
      hide Changed, Inv, Bit, Used, Grew, FieldsOk, Room;
      bits := {};
      if bn < NDIRECT {
        ok, addr, bits := BmapDirect(i, bn);
        return;
      }
      if bn - NDIRECT < NINDIRECT {
        ok, addr, bits := BmapIndirect(i, bn - NDIRECT);
        return;
      }
      return false, 0, {};
    }

    method BmapDirect(i: nat, bn: nat) returns (ok: bool, addr: nat, ghost bits: set<nat>)
      requires Valid() && i < |inodes| && bn < NDIRECT
      modifies this`blocks, this`inodes, this`owner, this`logged
      ensures ok <==> Room(old(View())) >= Need(old(View()), i, bn)
      ensures ok ==> Room(View()) == Room(old(View())) - Need(old(View()), i, bn)
      ensures !ok ==> Shape(View()) && forall c :: 0 <= c < sb.size ==> Used(View(), c)
      ensures ok ==> Valid() && Grew(old(View()), old(owner), View(), owner, i, bn)
      ensures ok ==> addr == At(View(), SlotOf(i, bn)) && addr in owner
      ensures ok && At(old(View()), SlotOf(i, bn)) == 0 ==> addr < |blocks| && blocks[addr] == ZeroBlock()
      ensures At(old(View()), SlotOf(i, bn)) != 0 ==> ok && View() == old(View()) && owner == old(owner)
      ensures ok ==> logged <= old(logged) + {addr} + bits
      ensures ok ==> |bits| <= if At(old(View()), SlotOf(i, bn)) == 0 then 1 else 0
      ensures ok ==> forall x :: x in bits ==> InBitmap(sb, x)
    {
      hide Changed, Inv, Grew, Assigned, Bit, Word, ZeroBlock;
      InvShape(View(), owner);
      bits := {};
      ghost var fs := View();
      assert At(fs, SlotOf(i, bn)) == inodes[i].addrs[bn];
      addr := inodes[i].addrs[bn];
      if addr == 0 {
        ok, addr := Balloc();
        if !ok {
          return;
        }
        bits := {BBlock(sb, addr)};
        GrewByAddr(fs, owner, addr, i, bn);
        AddrAssigned(fs, owner, addr, i, bn);
        inodes := inodes[i := inodes[i].(addrs := inodes[i].addrs[bn := addr])];
        assert View() == AssignAddr(fs, addr, i, bn);
        NotOwned(fs, owner, addr);
        RoomLess(fs, owner, View(), addr, Addr(i, bn));
        owner := owner[addr := Addr(i, bn)];
      } else {
        GrewNothing(fs, owner, i, bn);
        InvSlot(fs, owner, SlotOf(i, bn));
      }
      ok := true;
    }

    /** The indirect block of inode `i`, allocated if missing. */
    method LoadTable(i: nat) returns (ok: bool, a: nat, ghost bits: set<nat>)
      requires Valid() && i < |inodes|
      modifies this`blocks, this`inodes, this`owner, this`logged
      ensures ok <==> Room(old(View())) >= if old(inodes[i].addrs[NDIRECT]) == 0 then 1 else 0
      ensures ok ==> Room(View()) == Room(old(View())) - if old(inodes[i].addrs[NDIRECT]) == 0 then 1 else 0
      ensures !ok ==> Shape(View()) && forall c :: 0 <= c < sb.size ==> Used(View(), c)
      ensures ok ==> Valid() && |inodes| == |old(inodes)| && a == inodes[i].addrs[NDIRECT] != 0
      ensures old(inodes[i].addrs[NDIRECT]) != 0 ==> ok && unchanged(this) && bits == {}
      ensures ok && old(inodes[i].addrs[NDIRECT]) == 0 ==>
                && sb.datastart <= a < sb.size && !Used(old(View()), a)
                && View() == AssignAddr(old(View()), a, i, NDIRECT) && owner == old(owner)[a := Addr(i, NDIRECT)]
                && bits == {BBlock(sb, a)} && InBitmap(sb, BBlock(sb, a))
                && logged == old(logged) + {a} + bits
    {
      hide Changed, Inv, Assigned, Bit, Word, ZeroBlock;
      InvShape(View(), owner);
      bits := {};
      a := inodes[i].addrs[NDIRECT];
      if a == 0 {
        ghost var fs := View();
        ok, a := Balloc();
        if !ok {
          return;
        }
        bits := {BBlock(sb, a)};
        AddrAssigned(fs, owner, a, i, NDIRECT);
        inodes := inodes[i := inodes[i].(addrs := inodes[i].addrs[NDIRECT := a])];
        assert View() == AssignAddr(fs, a, i, NDIRECT);
        NotOwned(fs, owner, a);
        RoomLess(fs, owner, View(), a, Addr(i, NDIRECT));
        owner := owner[a := Addr(i, NDIRECT)];
      }
      ok := true;
    }

    method BmapIndirect(i: nat, j: nat) returns (ok: bool, addr: nat, ghost bits: set<nat>)
      requires Valid() && i < |inodes| && j < NINDIRECT
      modifies this`blocks, this`inodes, this`owner, this`logged
      ensures ok <==> Room(old(View())) >= Need(old(View()), i, NDIRECT + j)
      ensures ok ==> Room(View()) == Room(old(View())) - Need(old(View()), i, NDIRECT + j)
      ensures !ok ==> Shape(View()) && forall c :: 0 <= c < sb.size ==> Used(View(), c)
      ensures ok ==> Valid() && Grew(old(View()), old(owner), View(), owner, i, NDIRECT + j)
      ensures ok ==> addr == At(View(), Entry(i, j)) && addr in owner
      ensures ok && At(old(View()), Entry(i, j)) == 0 ==> addr < |blocks| && blocks[addr] == ZeroBlock()
      ensures At(old(View()), Entry(i, j)) != 0 ==> ok && View() == old(View()) && owner == old(owner)
      ensures ok ==> logged <= old(logged) + {addr} + bits + {inodes[i].addrs[NDIRECT]}
      ensures ok ==> |bits| <= (if At(old(View()), Entry(i, j)) == 0 then 1 else 0) +
                               (if old(inodes[i].addrs[NDIRECT]) == 0 then 1 else 0)
      ensures ok ==> forall x :: x in bits ==> InBitmap(sb, x)
    {
      hide Changed, Bit, Word;
      ghost var fs, ow := View(), owner;
      if inodes[i].addrs[NDIRECT] == 0 {
        ok, addr, bits := BmapFreshTable(i, j);
      } else {
        ok, addr, bits := StoreEntry(i, j);
        if ok {
          hide Inv, AssignEntry, Grew;
          if At(fs, Entry(i, j)) == 0 {
            GrewByEntry(fs, ow, addr, i, j);
          } else {
            GrewNothing(fs, ow, i, NDIRECT + j);
          }
        }
      }
    }

    /** bmap of an entry when the indirect block itself is missing. */
    method BmapFreshTable(i: nat, j: nat) returns (ok: bool, addr: nat, ghost bits: set<nat>)
      requires Valid() && i < |inodes| && j < NINDIRECT && inodes[i].addrs[NDIRECT] == 0
      modifies this`blocks, this`inodes, this`owner, this`logged
      ensures ok <==> Room(old(View())) >= 2
      ensures ok ==> Room(View()) == Room(old(View())) - 2
      ensures !ok ==> Shape(View()) && forall c :: 0 <= c < sb.size ==> Used(View(), c)
      ensures ok ==> Valid() && Grew(old(View()), old(owner), View(), owner, i, NDIRECT + j)
      ensures ok ==> addr == At(View(), Entry(i, j)) && addr in owner && |inodes| == |old(inodes)|
      ensures ok ==> addr < |blocks| && blocks[addr] == ZeroBlock()
      ensures ok ==> logged <= old(logged) + {addr} + bits + {inodes[i].addrs[NDIRECT]} && |bits| <= 2
      ensures ok ==> forall x :: x in bits ==> InBitmap(sb, x)
    {
      hide Changed, Bit, Word, Inv, AssignAddr, Grew, Used;
      ghost var fs, ow := View(), owner;
      InvShape(fs, ow);
      var a: nat;
      ghost var more: set<nat>;
      addr := 0;
      ok, a, bits := LoadTable(i);
      if ok {
        ghost var mid := View();
        EmptyTable(fs, ow, a, i, j);
        ok, addr, more := StoreEntry(i, j);
        if ok {
          hide AssignEntry;
          GrewByBoth(fs, ow, mid, a, addr, i, j);
          UnionSize(bits, more);
          bits := bits + more;
        }
      }
    }

    /** The `j`-th entry of the indirect block, allocated if missing. */
    method StoreEntry(i: nat, j: nat) returns (ok: bool, addr: nat, ghost bits: set<nat>)
      requires Valid() && i < |inodes| && j < NINDIRECT && inodes[i].addrs[NDIRECT] != 0
      modifies this`blocks, this`inodes, this`owner, this`logged
      ensures ok <==> Room(old(View())) >= if At(old(View()), Entry(i, j)) == 0 then 1 else 0
      ensures ok ==> Room(View()) == Room(old(View())) - if At(old(View()), Entry(i, j)) == 0 then 1 else 0
      ensures !ok ==> Shape(View()) && forall c :: 0 <= c < sb.size ==> Used(View(), c)
      ensures ok ==> Valid() && addr == At(View(), Entry(i, j)) && addr in owner && inodes == old(inodes)
      ensures ok && At(old(View()), Entry(i, j)) == 0 ==> addr < |blocks| && blocks[addr] == ZeroBlock()
      ensures At(old(View()), Entry(i, j)) != 0 ==> ok && unchanged(this) && bits == {}
      ensures ok && At(old(View()), Entry(i, j)) == 0 ==>
                && sb.datastart <= addr < sb.size && !Used(old(View()), addr)
                && View() == AssignEntry(old(View()), addr, i, j) && owner == old(owner)[addr := Entry(i, j)]
                && bits == {BBlock(sb, addr)} && InBitmap(sb, BBlock(sb, addr))
                && logged == old(logged) + {addr, inodes[i].addrs[NDIRECT]} + bits
    {
      hide Changed, Inv, Bit, Word, Used, FieldsOk;
      bits := {};
      InvShape(View(), owner);
      ghost var fs := View();
      var a := inodes[i].addrs[NDIRECT];
      assert AddrOk(sb, a);
      addr := Word(blocks[a], j);
      assert ValidSlot(fs, Entry(i, j)) && At(fs, Entry(i, j)) == addr;
      if addr == 0 {
        ok, addr, bits := NewEntry(i, j, a);
      } else {
        InvSlot(fs, owner, Entry(i, j));
        ok := true;
      }
    }

    /** The allocation in the indirect part of bmap. */
    method NewEntry(i: nat, j: nat, a: nat) returns (ok: bool, addr: nat, ghost bits: set<nat>)
      requires Valid() && i < |inodes| && j < NINDIRECT && a == inodes[i].addrs[NDIRECT] != 0
      requires At(View(), Entry(i, j)) == 0
      modifies this`blocks, this`inodes, this`owner, this`logged
      ensures ok <==> Room(old(View())) >= 1
      ensures ok ==> Room(View()) == Room(old(View())) - 1
      ensures !ok ==> Shape(View()) && forall c :: 0 <= c < sb.size ==> Used(View(), c)
      ensures ok ==> Valid() && addr == At(View(), Entry(i, j)) && addr in owner && inodes == old(inodes)
      ensures ok ==> addr < |blocks| && blocks[addr] == ZeroBlock()
      ensures ok ==> && sb.datastart <= addr < sb.size && !Used(old(View()), addr)
                     && View() == AssignEntry(old(View()), addr, i, j) && owner == old(owner)[addr := Entry(i, j)]
                     && bits == {BBlock(sb, addr)} && InBitmap(sb, BBlock(sb, addr))
                     && logged == old(logged) + {addr, a} + bits
    {
      hide Changed, Inv, Bit, Word, Used, FieldsOk, Room, ZeroBlock;
      bits := {};
      InvShape(View(), owner);
      ghost var fs := View();
      assert AddrOk(sb, a);
      ok, addr := Balloc();
      if !ok {
        return;
      }
      EntryAssigned(fs, owner, addr, i, j);
      NotOwned(fs, owner, addr);
      assert ValidSlot(fs, Entry(i, j));
      LogWrite(a, SetWord(blocks[a], j, addr));
      assert View() == AssignEntry(fs, addr, i, j);
      assert addr != a by {
        TableInUse(fs, owner, i);
      }
      bits := {BBlock(sb, addr)};
      RoomLess(fs, owner, View(), addr, Entry(i, j));
      owner := owner[addr := Entry(i, j)];
    }

    /** The in-core inode copied to the inode block. */
    method Iupdate(i: nat)
      requires Valid() && i < |inodes|
      modifies this`blocks, this`logged
      ensures Valid() && View() == Iupdated(old(View()), i)
      ensures logged == old(logged) + {IBlock(sb, i)}
    {
      hide Changed;
      IupdateInv(View(), owner, i);
      var ib := IBlock(sb, i);
      assert forall k :: 0 <= k <= NDIRECT ==> AddrOk(sb, inodes[i].addrs[k]);
      ghost var fs := View();
      hide Inv, PutInode;
      LogWrite(ib, PutInode(blocks[ib], i % IPB, inodes[i]));
      assert View() == Iupdated(fs, i);
    }

    /** One round of readi's loop: what is wanted of the block that holds `off`. */
    method ReadChunk(i: nat, off: nat, want: nat) returns (chunk: seq<Byte>)
      requires Valid() && i < |inodes| && Extent(View(), i, inodes[i].size)
      requires 0 < want && off + want <= inodes[i].size
      modifies this`blocks, this`inodes, this`owner, this`logged
      ensures View() == old(View()) && owner == old(owner) && Valid()
      ensures |chunk| == Min(want, BSIZE - off % BSIZE)
      ensures chunk == Bytes(View(), owner, i, inodes[i].size)[off..off + |chunk|]
    {
      hide Changed, Inv, Grew, FieldsOk, Room, Need, Bytes;
      InvShape(View(), owner);
      MappedBelow(View(), owner, i, inodes[i].size, off);
      var ok, b, bits := Bmap(i, off / BSIZE);
      var m := Min(want, BSIZE - off % BSIZE);
      BlockSlice(View(), owner, i, inodes[i].size, off, m);
      chunk := blocks[b][off % BSIZE..off % BSIZE + m];
    }

    /** readi returns the slice of the file's bytes that exists, or -1 when the
        offset is past the end or `off + n` wraps around 32 bits. */
    method Readi(i: nat, off0: nat, n0: nat) returns (r: Io, dst: seq<Byte>)
      requires Valid() && i < |inodes| && Extent(View(), i, inodes[i].size)
      requires off0 < WORD_LIMIT && n0 < WORD_LIMIT
      modifies this`blocks, this`inodes, this`owner, this`logged
      ensures View() == old(View()) && owner == old(owner) && Valid()
      ensures r == Device <==> inodes[i].typ == T_DEV
      ensures r == Failed <==> inodes[i].typ != T_DEV && (off0 > inodes[i].size || off0 + n0 >= WORD_LIMIT)
      ensures r.Count? ==> r.n == (if off0 + n0 > inodes[i].size then inodes[i].size - off0 else n0)
      ensures r.Count? ==> dst == Bytes(View(), owner, i, inodes[i].size)[off0..off0 + r.n]
      ensures !r.Count? ==> dst == []
    {
      hide Changed, Inv, Extent, Bytes;
      dst := [];
      if inodes[i].typ == T_DEV {
        return Device, dst;
      }
      if off0 > inodes[i].size || (off0 + n0) % WORD_LIMIT < off0 {
        return Failed, dst;
      }
      var n := if off0 + n0 > inodes[i].size then inodes[i].size - off0 else n0;
      ghost var file := Bytes(View(), owner, i, inodes[i].size);
      var tot, off := 0, off0;
      while tot < n
        invariant 0 <= tot <= n && off == off0 + tot
        invariant Valid() && View() == old(View()) && owner == old(owner)
        invariant dst == file[off0..off]
        decreases n - tot
      {
        var chunk := ReadChunk(i, off, n - tot);
        assert file[off0..off] + file[off..off + |chunk|] == file[off0..off + |chunk|];
        dst := dst + chunk;
        tot, off := tot + |chunk|, off + |chunk|;
      }
      return Count(n), dst;
    }

    /** One round of writei's loop: as much of `want` as the block that holds
        `off` takes. `hi` is how far the file reaches, written or allocated. */
    method WriteChunk(i: nat, off: nat, ghost hi: nat, want: seq<Byte>)
      returns (ok: bool, m: nat, ghost addr: nat, ghost bits: set<nat>)
      requires Valid() && i < |inodes| && Extent(View(), i, hi) && off <= hi
      requires want != [] && off + |want| <= MAXBYTES
      modifies this`blocks, this`inodes, this`owner, this`logged
      ensures m == Min(|want|, BSIZE - off % BSIZE)
      ensures ok <==> Enough(old(View()), hi, Max(hi, off + m))
      ensures ok ==> Balanced(old(View()), View(), hi, Max(hi, off + m))
      ensures ok ==> Valid() && ChunkDone(old(View()), old(owner), View(), owner, i, hi, off, want[..m])
      ensures ok ==> ChunkLogged(old(View()), View(), i, hi, off, old(logged), logged, addr, bits)
      ensures ok ==> |inodes| == |old(inodes)|
    {
      hide Changed, Inv, Extent, At, Room, Need, BlocksOf, ChunkDone, ChunkLogged, Grew, FieldsOk;
      ghost var f0, o0, log0 := View(), owner, logged;
      var b: nat;
      m := Min(|want|, BSIZE - off % BSIZE);
      InvShape(f0, o0);
      NeedIs(f0, i, hi, off, m);
      ok, b, bits := Bmap(i, off / BSIZE);
      addr := b;
      if !ok {
        return;
      }
      ghost var f1 := View();
      InvShape(f1, owner);
      InvBlock(f1, owner, b);
      hide Shape;
      assert |want[..m]| == m;
      ChunkEffect(f0, o0, f1, owner, i, hi, off, want[..m]);
      ChunkIsLogged(f0, o0, f1, owner, i, hi, off, want[..m], log0, logged, b, bits);
      LogWrite(b, Store(blocks[b], off % BSIZE, want[..m]));
      assert View() == StoreChunk(f1, i, off, want[..m]);
      assert Inv(View(), owner) by {
        ChunkInv(f0, o0, View(), owner, i, hi, off, want[..m]);
      }
      RoomSame(f1, View(), owner);
    }

    /** One round, in terms of what the whole loop has done so far. */
    method WriteRound(i: nat, src: seq<Byte>, off0: nat, tot: nat, ghost f0: Fs, ghost o0: map<nat, Slot>,
                      ghost size0: nat, ghost log0: set<nat>, ghost t: Tally)
      returns (ok: bool, m: nat, ghost t': Tally)
      requires Valid() && i < |inodes| && tot < |src| && off0 + |src| <= MAXBYTES
      requires i < |f0.inodes| && size0 == f0.inodes[i].size && Written(f0, o0, View(), owner, i, size0, off0, src[..tot])
      requires Counted(f0, View(), i, off0, |src|, tot, log0, logged, t)
      requires Balanced(f0, View(), size0, Max(size0, off0 + tot))
      modifies this`blocks, this`inodes, this`owner, this`logged
      ensures ok ==> Balanced(f0, View(), size0, Max(size0, off0 + tot + m))
      ensures !ok ==> !Enough(f0, size0, Max(size0, off0 + |src|))
      ensures 0 < m <= |src| - tot && (ok ==> |inodes| == |old(inodes)|)
      ensures ok ==> Valid() && Written(f0, o0, View(), owner, i, size0, off0, src[..tot + m])
      ensures ok ==> Counted(f0, View(), i, off0, |src|, tot + m, log0, logged, t')
    {
      hide Changed, Inv, Extent, Bytes, OthersKept, MetaKept, Room, BlocksOf, Counted, ChunkDone, ChunkLogged;
      ghost var f1, o1, log1 := View(), owner, logged;
      ghost var addr: nat, bits: set<nat>;
      ok, m, addr, bits := WriteChunk(i, off0 + tot, Max(size0, off0 + tot), src[tot..]);
      t' := Tally(t.rounds + 1, t.data + {addr}, t.bits + bits);
      BlocksGrow(Max(size0, off0 + tot + m), Max(size0, off0 + |src|));
      hide Written;
      if ok {
        SliceOn(src, tot, m);
        WrittenOn(f0, o0, f1, o1, View(), owner, i, size0, off0, src[..tot], tot, src[tot..][..m], src[..tot + m]);
        CountedOn(f0, f1, View(), i, off0, |src|, tot, m, log0, log1, logged, t, addr, bits);
      }
    }

    /** writei's loop. */
    method WriteLoop(i: nat, src: seq<Byte>, off0: nat) returns (ok: bool, ghost t: Tally)
      requires Valid() && i < |inodes| && Extent(View(), i, inodes[i].size)
      requires off0 <= inodes[i].size && off0 + |src| <= MAXBYTES
      modifies this`blocks, this`inodes, this`owner, this`logged
      ensures ok <==> Enough(old(View()), old(inodes[i].size), Max(old(inodes[i].size), off0 + |src|))
      ensures ok ==> Balanced(old(View()), View(), old(inodes[i].size), Max(old(inodes[i].size), off0 + |src|))
      ensures ok ==> Valid() && Written(old(View()), old(owner), View(), owner, i, old(inodes[i].size), off0, src)
      ensures ok ==> Counted(old(View()), View(), i, off0, |src|, |src|, old(logged), logged, t)
    {
      hide Changed, Inv, Extent, Written, Counted;
      ok := true;
      t := Tally(0, {}, {});
      var tot := 0;
      WriteStart(View(), owner, i, off0, |src|, logged);
      assert src[..0] == [];
      while tot < |src|
        invariant 0 <= tot <= |src| && Valid() && i < |inodes| == |old(inodes)|
        invariant ok && Balanced(old(View()), View(), old(inodes[i].size), Max(old(inodes[i].size), off0 + tot))
        invariant Written(old(View()), old(owner), View(), owner, i, old(inodes[i].size), off0, src[..tot])
        invariant Counted(old(View()), View(), i, off0, |src|, tot, old(logged), logged, t)
        decreases |src| - tot
      {
        var m: nat;
        ok, m, t := WriteRound(i, src, off0, tot, old(View()), old(owner), old(inodes[i].size), old(logged), t);
        if !ok {
          return;
        }
        tot := tot + m;
      }
      assert src[..tot] == src;
    }

    /** writei past its checks: the loop, then the new size if the file grew. */
    method WriteAll(i: nat, src: seq<Byte>, off0: nat) returns (ok: bool)
      requires Valid() && i < |inodes| && Extent(View(), i, inodes[i].size)
      requires off0 <= inodes[i].size && off0 + |src| <= MAXBYTES
      modifies this`blocks, this`inodes, this`owner, this`logged
      ensures ok <==> Enough(old(View()), old(inodes[i].size), Max(old(inodes[i].size), off0 + |src|))
      ensures ok ==> Balanced(old(View()), View(), old(inodes[i].size), Max(old(inodes[i].size), off0 + |src|))
      ensures ok ==> Valid() && Spliced(old(View()), old(owner), View(), owner, i, src, off0)
      ensures ok && old(logged) == {} ==>
                |logged| <= MostLogged(|src|) && (sb.size <= BPB ==> |logged| <= DataBlocks(|src|) + 4)
    {
      hide Changed, Inv, Extent, Written, Counted, Spliced, BlocksOf, Room, FieldsOk;
      ghost var f0, o0 := View(), owner;
      ghost var t;
      ok, t := WriteLoop(i, src, off0);
      if !ok {
        return;
      }
      WrittenMeta(f0, o0, View(), owner, i, f0.inodes[i].size, off0, src);
      if old(logged) == {} {
        CountedBound(f0, View(), i, off0, |src|, logged, t);
        UnionSize(logged, {IBlock(sb, i)});
      }
      var off := off0 + |src|;
      ghost var f1 := View();
      if |src| > 0 && off > inodes[i].size {
        Extend(f0, i, off);
        RoomSame(f1, View(), owner);
        SplicedGrown(f0, o0, f1, View(), owner, i, src, off0);
      } else {
        SplicedInPlace(f0, o0, f1, owner, i, src, off0);
      }
    }

    /** writei splices `src` into the file's bytes and touches nothing else: -1
        (and no change) past the end, past MAXFILE blocks, or when `off + n`
        wraps. `ok` is false, where the source panics, exactly when there are fewer
        free blocks than the file must grow by; otherwise it takes exactly that
        many. A write of up to three blocks logs at most ten. */
    method Writei(i: nat, src: seq<Byte>, off0: nat) returns (ok: bool, r: Io)
      requires Valid() && i < |inodes| && Extent(View(), i, inodes[i].size)
      requires off0 < WORD_LIMIT && |src| < WORD_LIMIT
      modifies this`blocks, this`inodes, this`owner, this`logged
      ensures ok <==> old(inodes[i].typ) == T_DEV || !Fits(old(inodes[i].size), off0, |src|)
                      || Enough(old(View()), old(inodes[i].size), Max(old(inodes[i].size), off0 + |src|))
      ensures ok && r.Count? ==> i < |inodes| && Balanced(old(View()), View(), old(inodes[i].size), inodes[i].size)
      ensures ok && r.Device? <==> old(inodes[i].typ) == T_DEV
      ensures ok && r.Failed? <==> old(inodes[i].typ) != T_DEV && !Fits(old(inodes[i].size), off0, |src|)
      ensures ok && !r.Count? ==> unchanged(this)
      ensures ok && r.Count? ==> r.n == |src| && Valid()
      ensures ok && r.Count? ==> Spliced(old(View()), old(owner), View(), owner, i, src, off0)
      ensures ok && old(logged) == {} ==>
                |logged| <= MostLogged(|src|) && (sb.size <= BPB ==> |logged| <= DataBlocks(|src|) + 4)
    {
      hide Changed;
      if inodes[i].typ == T_DEV {
        return true, Device;
      }
      if off0 > inodes[i].size || (off0 + |src|) % WORD_LIMIT < off0 {
        return true, Failed;
      }
      if off0 + |src| > MAXBYTES {
        return true, Failed;
      }
      ok := WriteAll(i, src, off0);
      return ok, Count(|src|);
    }

    /** writei's last step: the file ends at `off` now, in core and on disk. */
    method Extend(ghost f0: Fs, i: nat, off: nat)
      requires Valid() && i < |inodes| && off < WORD_LIMIT && MetaKept(f0, View(), i)
      modifies this`inodes, this`blocks, this`logged
      ensures Valid() && logged == old(logged) + {IBlock(sb, i)}
      ensures inodes == old(inodes)[i := old(inodes)[i].(size := off)]
      ensures forall x, h :: Extent(old(View()), x, h) ==>
                Extent(View(), x, h) && Bytes(View(), owner, x, h) == Bytes(old(View()), owner, x, h)
      ensures forall x :: 0 <= x < |inodes| && (x == i || Synced(f0, x)) ==> Synced(View(), x)
    {
      hide Changed;
      ghost var f1 := View();
      inodes := inodes[i := inodes[i].(size := off)];
      ghost var f2 := View();
      SizeSet(f1, owner, i, off);
      Iupdate(i);
      IupdateKeeps(f2, owner, i);
      forall x | 0 <= x < |inodes| && (x == i || Synced(f0, x))
        ensures Synced(View(), x)
      {
        SyncedByIupdate(f2, i, x);
        if x != i {
          SameOnDisk(f0, f2, x);
        }
      }
    }

    /** One direct block freed; the "freeing free block" panic cannot happen. */
    method FreeOne(i: nat, k: nat)
      requires Valid() && i < |inodes| && k < NDIRECT && inodes[i].addrs[k] != 0
      modifies this`blocks, this`inodes, this`owner, this`logged
      ensures Valid() && owner == old(owner) - {old(inodes[i].addrs[k])}
      ensures inodes == old(inodes)[i := old(inodes)[i].(addrs := old(inodes)[i].addrs[k := 0])]
      ensures DataAndTableKept(old(View()), View())
    {
      hide Changed;
      ghost var fs := View();
      var b := inodes[i].addrs[k];
      AddrFreed(fs, owner, i, k);
      BBlockInBitmap(sb, b);
      var ok := Bfree(b);
      assert ok;
      inodes := inodes[i := inodes[i].(addrs := inodes[i].addrs[k := 0])];
      owner := owner - {b};
      assert View() == FreeAddr(fs, i, k);
    }

    /** itrunc's first loop: the direct blocks of inode `i` freed and unmapped. */
    method FreeDirect(i: nat)
      requires Valid() && i < |inodes|
      modifies this`blocks, this`inodes, this`owner, this`logged
      ensures Valid() && owner == WithoutDirect(old(owner), i, NDIRECT)
      ensures inodes == old(inodes)[i := old(inodes)[i].(addrs := inodes[i].addrs)]
      ensures forall k :: 0 <= k < NDIRECT ==> inodes[i].addrs[k] == 0
      ensures inodes[i].addrs[NDIRECT] == old(inodes[i].addrs[NDIRECT])
      ensures DataAndTableKept(old(View()), View())
    {
      hide Changed;
      var k := 0;
      WithoutNone(owner, i);
      while k < NDIRECT
        invariant 0 <= k <= NDIRECT && Valid() && owner == WithoutDirect(old(owner), i, k)
        invariant inodes == old(inodes)[i := old(inodes)[i].(addrs := inodes[i].addrs)]
        invariant forall x :: 0 <= x < k ==> inodes[i].addrs[x] == 0
        invariant inodes[i].addrs[NDIRECT] == old(inodes[i].addrs[NDIRECT])
        invariant DataAndTableKept(old(View()), View())
      {
        WithoutNext(View(), owner, old(owner), i, k);
        if inodes[i].addrs[k] != 0 {
          FreeOne(i, k);
        }
        k := k + 1;
      }
    }

    /** itrunc's second loop: the blocks listed in the indirect block freed. */
    method FreeEntries(i: nat)
      requires Valid() && i < |inodes| && inodes[i].addrs[NDIRECT] != 0
      modifies this`blocks, this`logged
      ensures Shape(View()) && DataAndTableKept(old(View()), View()) && Journaled()
      ensures forall b :: 0 <= b < sb.size ==>
                (Used(View(), b) <==> Used(old(View()), b) && !EntryBelow(owner, b, i, NINDIRECT))
    {
      hide Changed;
      ghost var fs := View();
      var a := inodes[i].addrs[NDIRECT];
      assert AddrOk(sb, a);
      var table := blocks[a];
      var j := 0;
      while j < NINDIRECT
        invariant 0 <= j <= NINDIRECT && Shape(View()) && DataAndTableKept(fs, View()) && Journaled()
        invariant forall b :: 0 <= b < sb.size ==> (Used(View(), b) <==> Used(fs, b) && !EntryBelow(owner, b, i, j))
      {
        var b := Word(table, j);
        assert At(fs, Entry(i, j)) == b && ValidSlot(fs, Entry(i, j));
        if b != 0 {
          ghost var mid := View();
          InvSlot(fs, owner, Entry(i, j));
          assert BlockOk(fs, owner, b);
          BBlockInBitmap(sb, b);
          var ok := Bfree(b);
          assert ok;
          forall c | 0 <= c < sb.size
            ensures Used(View(), c) <==> Used(fs, c) && !EntryBelow(owner, c, i, j + 1)
          {
            UsedAfterMark(mid, b, false, c);
            EntryBelowNext(fs, owner, c, i, j);
          }
        } else {
          forall c | 0 <= c < sb.size
            ensures EntryBelow(owner, c, i, j + 1) == EntryBelow(owner, c, i, j)
          {
            EntryBelowNext(fs, owner, c, i, j);
          }
        }
        j := j + 1;
      }
    }

    /** The indirect block and everything it lists freed and unmapped. */
    method FreeTable(i: nat)
      requires Valid() && i < |inodes| && inodes[i].addrs[NDIRECT] != 0
      requires forall k :: 0 <= k < NDIRECT ==> inodes[i].addrs[k] == 0
      modifies this`blocks, this`inodes, this`owner, this`logged
      ensures Valid() && owner == Without(old(owner), i)
      ensures inodes == old(inodes)[i := old(inodes)[i].(addrs := old(inodes)[i].addrs[NDIRECT := 0])]
      ensures DataAndTableKept(old(View()), View())
    {
      hide Changed, Inv, Bit, Word, Used, DataAndTableKept, EntryBelow;
      InvShape(View(), owner);
      ghost var fs := View();
      var a := inodes[i].addrs[NDIRECT];
      assert ValidSlot(fs, Addr(i, NDIRECT)) && At(fs, Addr(i, NDIRECT)) == a && AddrOk(sb, a);
      TableInUse(fs, owner, i);
      FreeEntries(i);
      ghost var mid := View();
      BBlockInBitmap(sb, a);
      var ok := Bfree(a);
      assert ok;
      ghost var f2 := View();
      inodes := inodes[i := inodes[i].(addrs := inodes[i].addrs[NDIRECT := 0])];
      owner := Without(owner, i);
      TableFreed(fs, old(owner), mid, f2, View(), i, a);
    }

    /** itrunc: frees exactly the blocks of inode `i`, leaves it empty in core and
        on disk, and changes no byte of any other file. */
    method Itrunc(i: nat)
      requires Valid() && i < |inodes|
      modifies this`blocks, this`inodes, this`owner, this`logged
      ensures Valid() && owner == Without(old(owner), i)
      ensures Emptied(old(View()), View(), i)
      ensures inodes[i] == old(inodes)[i].(size := 0, addrs := inodes[i].addrs)
      ensures forall b :: 0 <= b < sb.size ==>
                (Used(View(), b) <==> Used(old(View()), b) && !(b in old(owner) && old(owner)[b].i == i))
      ensures Extent(View(), i, 0) && OthersKept(old(View()), old(owner), View(), owner, i)
      ensures forall x :: 0 <= x < |inodes| && (x == i || Synced(old(View()), x)) ==> Synced(View(), x)
    {
      hide Changed, Inv, Extent, At, Bit, Used, Emptied, OthersKept, Synced, DataAndTableKept;
      ghost var f0, o0 := View(), owner;
      FreeDirect(i);
      ghost var f1 := View();
      if inodes[i].addrs[NDIRECT] != 0 {
        FreeTable(i);
      } else {
        NothingLeft(View(), owner, i);
        InvShape(f1, owner);
        TableKeptSame(f1, f1);
      }
      WithoutBoth(o0, i);
      assert owner == Without(o0, i);
      ghost var fm := View();
      TableKeptTwice(f0, f1, fm);
      SizeSet(fm, owner, i, 0);
      inodes := inodes[i := inodes[i].(size := 0)];
      ghost var f2 := View();
      TableKeptSame(fm, f2);
      TableKeptTwice(f0, fm, f2);
      Iupdate(i);
      TruncDone(f0, o0, f2, i);
      UsedAfterTrunc(f0, o0, View(), i);
      TruncSynced(f0, f2, i);
    }

    /** One transaction of filewrite: begin_op, ilock, writei, iunlock, end_op. */
    method FileChunk(i: nat, data: seq<Byte>, off0: nat, k: nat, ghost f0: Fs, ghost o0: map<nat, Slot>)
      returns (ok: bool, wrote: bool, n1: nat, ghost log: set<nat>)
      requires Valid() && k < |data| && off0 < WORD_LIMIT
      requires Progress(f0, o0, View(), owner, i, off0, data, k)
      requires Balanced(f0, View(), f0.inodes[i].size, inodes[i].size)
      modifies this
      ensures !ok ==> off0 <= f0.inodes[i].size && off0 + k + n1 <= MAXBYTES
      ensures !ok ==> !Enough(f0, f0.inodes[i].size, Max(f0.inodes[i].size, off0 + k + n1))
      ensures ok ==> |inodes| == |old(inodes)|
      ensures ok ==> Balanced(f0, View(), f0.inodes[i].size, inodes[i].size)
      ensures n1 == Min(|data| - k, CHUNK)
      ensures ok ==> Bounded(sb, [log]) && Changed(sb, old(blocks), blocks, log)
      ensures ok ==> (wrote <==> off0 <= f0.inodes[i].size && off0 + k + n1 <= MAXBYTES)
      ensures ok ==> Valid() && Progress(f0, o0, View(), owner, i, off0, data, if wrote then k + n1 else k)
    {
      hide Inv, Extent, Spliced, Balanced, Enough, FieldsOk;
      n1 := Min(|data| - k, CHUNK);
      ghost var f1, o1, size1 := View(), owner, inodes[i].size;
      BalancedOn(f0, f1, f1, f0.inodes[i].size, size1, Max(size1, off0 + k + n1));
      logged, base := {}, blocks;
      var res: Io;
      ok, res := Writei(i, data[k..k + n1], off0 + k);
      log := logged;
      wrote := res.Count?;
      if ok && wrote {
        SpliceParts(f0, o0, f1, o1, View(), owner, i, off0, data, k, n1);
        BalancedOn(f0, f1, View(), f0.inodes[i].size, size1, inodes[i].size);
      }
    }

    lemma StartsWriting(i: nat, off0: nat, data: seq<Byte>)
      requires Valid() && i < |inodes| && Extent(View(), i, inodes[i].size) && inodes[i].typ != T_DEV
      ensures Progress(View(), owner, View(), owner, i, off0, data, 0) && inodes[i].size <= MAXBYTES
    {
      ProgressStart(View(), owner, i, off0, data);
    }

    /** filewrite's loop for a device: its own write function gets the bytes in chunks
        and `dev(c, m)` is what the `c`-th call, with `m` bytes, returns. */
    method WriteDevice(off0: nat, n: int, dev: (nat, nat) -> int) returns (ok: bool, r: int, off: nat, ghost c: nat)
      ensures DeviceWrote(dev, off0, n, c, ok, r, off)
    {
      var k := 0;
      off, c := off0, 0;
      while k < n
        invariant 0 <= k && off == off0 + k && (if n < 0 then k == c == 0 else k == Min(c * CHUNK, n))
        invariant forall x :: 0 <= x < c ==> Accepted(dev, n, x)
        decreases n - k
      {
        var n1 := Min(n - k, CHUNK);
        r := dev(k / CHUNK, n1);
        if r > 0 {
          off := off + r;
        }
        if r < 0 {
          return true, -1, off, c;
        }
        if r != n1 {
          return false, -1, off, c;
        }
        k, c := k + n1, c + 1;
      }
      return true, if k == n then n else -1, off, c;
    }

    /** filewrite on an inode: chunks of at most CHUNK bytes, one transaction
        each; `ops` lists what each of them logged. All of `data` is written when
        it fits, else exactly the whole chunks that do, and the result is -1.
        `ok` is false, where the source panics, exactly when there are fewer free
        blocks than the file must grow by. For a device the file system is left alone
        and `c` chunks are accepted in full. */
    method Filewrite(i: nat, off0: nat, data: seq<Byte>, n: int, dev: (nat, nat) -> int)
      returns (ok: bool, r: int, off: nat, ghost ops: seq<set<nat>>, ghost states: seq<Snapshot>, ghost c: nat)
      requires Valid() && i < |inodes| && Extent(View(), i, inodes[i].size)
      requires off0 < WORD_LIMIT && n < WORD_LIMIT / 2 && |data| == if n < 0 then 0 else n
      modifies this
      ensures old(inodes[i].typ) == T_DEV ==> unchanged(this) && DeviceWrote(dev, off0, n, c, ok, r, off)
      ensures old(inodes[i].typ) != T_DEV ==>
                (ok <==> Enough(old(View()), old(inodes[i].size), Reach(old(inodes[i].size), off0, |data|)))
      ensures old(inodes[i].typ) != T_DEV && ok ==>
                && off - off0 == Writable(old(inodes[i].size), off0, |data|)
                && r == (if off - off0 == n then n else -1)
                && i < |inodes| && inodes[i].size == Reach(old(inodes[i].size), off0, |data|)
                && Balanced(old(View()), View(), old(inodes[i].size), inodes[i].size)
                && Valid() && Progress(old(View()), old(owner), View(), owner, i, off0, data, off - off0)
      ensures old(inodes[i].typ) != T_DEV && ok ==>
                && Bounded(sb, ops) && Trail(states, ops, i, off0, data, off - off0)
                && states[0] == old(Snapshot(View(), owner)) && states[|ops|] == Snapshot(View(), owner)
    {
      hide Changed, Valid, Progress, Inv, Extent, Writable, Whole, Bounded, FieldsOk, Enough, Balanced, BlocksOf, Reach, Trail;
      c := 0;
      if inodes[i].typ == T_DEV {
        ops, states := [], [];
        ok, r, off, c := WriteDevice(off0, n, dev);
        return;
      }
      BoundedNext(sb, [], {});
      WholeChunks(0, 0);
      ok, off, ops, states := true, off0, [], [Snapshot(View(), owner)];
      var k := 0;
      ghost var f0, o0, size0 := View(), owner, inodes[i].size;
      StartsWriting(i, off0, data);
      BalancedNothing(f0, size0);
      TrailStart(View(), owner, i, off0, data);
      while k < n
        invariant 0 <= k <= |data| && off == off0 + k && (k < n ==> Whole(k, c)) && ok
        invariant k > 0 ==> off0 <= size0 && off0 + k <= MAXBYTES
        invariant size0 <= MAXBYTES && i < |inodes|
        invariant Valid() && Progress(f0, o0, View(), owner, i, off0, data, k)
        invariant Balanced(f0, View(), size0, inodes[i].size)
        invariant Bounded(sb, ops) && c == |ops| && Trail(states, ops, i, off0, data, k)
        invariant |states| == |ops| + 1 && states[0] == Snapshot(f0, o0) && states[|ops|] == Snapshot(View(), owner)
        decreases n - k
      {
        var wrote, n1;
        ghost var log;
        ok, wrote, n1, log := FileChunk(i, data, off0, k, f0, o0);
        if !ok {
          NotEnough(f0, size0, off0, |data|, k, c, n1);
          r := -1;
          return;
        }
        BoundedNext(sb, ops, log);
        TrailNext(states, ops, i, off0, data, k, if wrote then k + n1 else k, Snapshot(View(), owner), log);
        ops, states := ops + [log], states + [Snapshot(View(), owner)];
        if !wrote {
          WritableStops(size0, off0, |data|, k, c, n1);
          ReachedSize(f0, o0, View(), owner, i, off0, data, k);
          r := -1;
          return;
        }
        WholeChunks(k, c);
        k, off, c := k + n1, off + n1, c + 1;
      }
      WritableAll(size0, off0, |data|);
      ReachedSize(f0, o0, View(), owner, i, off0, data, k);
      r := if k == n then n else -1;
    }
  }

  /** How far a file of `size` bytes reaches after filewrite. */
  function Reach(size: nat, off: nat, n: nat): nat {
    var w := Writable(size, off, n);
    if w == 0 then size else Max(size, off + w)
  }

  lemma BalancedNothing(fs: Fs, size: nat)
    ensures Balanced(fs, fs, size, size)
  {
  }

  /** A chunk that finds too few blocks: the whole write needed at least as many. */
  lemma NotEnough(fs: Fs, size: nat, off: nat, n: nat, k: nat, c: nat, n1: nat)
    requires Whole(k, c) && k < n && n1 == Min(n - k, CHUNK) && off <= size && off + k + n1 <= MAXBYTES
    requires !Enough(fs, size, Max(size, off + k + n1))
    ensures !Enough(fs, size, Reach(size, off, n))
  {
    if off + n > MAXBYTES {
      assert n1 == CHUNK && k + CHUNK == (c + 1) * CHUNK <= MAXBYTES - off;
      assert (MAXBYTES - off) / CHUNK >= c + 1;
    }
    assert Writable(size, off, n) >= k + n1;
    BlocksGrow(Max(size, off + k + n1), Reach(size, off, n));
  }

  lemma ReachedSize(f0: Fs, o0: map<nat, Slot>, fs: Fs, owner: map<nat, Slot>, i: nat, off0: nat, data: seq<Byte>, k: nat)
    requires Progress(f0, o0, fs, owner, i, off0, data, k) && k == Writable(f0.inodes[i].size, off0, |data|)
    requires Balanced(f0, fs, f0.inodes[i].size, fs.inodes[i].size)
    ensures fs.inodes[i].size == Reach(f0.inodes[i].size, off0, |data|)
    ensures Enough(f0, f0.inodes[i].size, Reach(f0.inodes[i].size, off0, |data|))
  {
    hide Inv, Extent, Writable, BlocksOf;
  }

  /** The blocks of a file of `h` bytes, its indirect block included. */
  function BlocksOf(h: nat): nat {
    (h + BSIZE - 1) / BSIZE + if h > NDIRECT * BSIZE then 1 else 0
  }

  lemma BlocksGrow(a: nat, b: nat)
    requires a <= b
    ensures BlocksOf(a) <= BlocksOf(b)
  {
  }

  /** There are free blocks for a file to grow from `a` to `b` bytes. */
  ghost predicate Enough(fs: Fs, a: nat, b: nat) {
    Room(fs) + BlocksOf(a) >= BlocksOf(b)
  }

  /** Blocks are conserved as a file grows from `a` to `b` bytes. */
  ghost predicate Balanced(fs: Fs, fs': Fs, a: nat, b: nat) {
    Room(fs') + BlocksOf(b) == Room(fs) + BlocksOf(a)
  }

  lemma BalancedOn(f0: Fs, f1: Fs, f2: Fs, a: nat, b: nat, c: nat)
    requires Balanced(f0, f1, a, b)
    ensures Balanced(f1, f2, b, c) ==> Balanced(f0, f2, a, c)
    ensures Enough(f1, b, c) <==> Enough(f0, a, c)
    ensures Enough(f1, b, b)
  {
  }

  /** bmap allocates exactly what the file grows by. */
  lemma NeedIs(fs: Fs, i: nat, hi: nat, off: nat, m: nat)
    requires Extent(fs, i, hi) && off <= hi && 0 < m <= BSIZE - off % BSIZE && off + m <= MAXBYTES
    ensures off / BSIZE < MAXFILE && Need(fs, i, off / BSIZE) == BlocksOf(Max(hi, off + m)) - BlocksOf(hi)
  {
    hide At, BlocksOf;
    BlocksOfGrown(hi, off, m);
    assert off / BSIZE < MAXFILE;
  }

  lemma BlocksOfGrown(hi: nat, off: nat, m: nat)
    requires off <= hi && 0 < m <= BSIZE - off % BSIZE
    ensures BlocksOf(Max(hi, off + m)) ==
            BlocksOf(hi) + (if off / BSIZE * BSIZE < hi then 0 else 1) +
            if NDIRECT <= off / BSIZE && hi <= NDIRECT * BSIZE then 1 else 0
  {
  }

  /** How many blocks bmap must allocate for file block `bn`. */
  ghost function Need(fs: Fs, i: nat, bn: nat): nat {
    if !Shape(fs) || i >= |fs.inodes| || bn >= MAXFILE then 0
    else (if At(fs, SlotOf(i, bn)) == 0 then 1 else 0) + if NDIRECT <= bn && fs.inodes[i].addrs[NDIRECT] == 0 then 1 else 0
  }

  /** balloc's two block writes. */
  lemma AllocSteps(fs: Fs, b: nat)
    requires Shape(fs) && fs.sb.datastart <= b < fs.sb.size && !Used(fs, b)
    ensures var bb := BBlock(fs.sb, b);
            && bb < |fs.blocks| && !Bit(fs.blocks[bb], b % BPB)
            && Alloc(fs, b) == Fs(fs.sb, fs.blocks[bb := FlipBit(fs.blocks[bb], b % BPB, true)][b := ZeroBlock()], fs.inodes)
  {
    BBlockInBitmap(fs.sb, b);
    hide Bit;
  }

  lemma NotOwned(fs: Fs, owner: map<nat, Slot>, b: nat)
    requires Inv(fs, owner) && b < fs.sb.size && !Used(fs, b)
    ensures b !in owner && fs.sb.datastart <= b
  {
    hide Bit, Owned;
  }

  lemma UsedAfterTrunc(fs: Fs, owner: map<nat, Slot>, fs': Fs, i: nat)
    requires Inv(fs, owner) && Inv(fs', Without(owner, i)) && fs'.sb == fs.sb
    ensures forall b :: 0 <= b < fs.sb.size ==> (Used(fs', b) <==> Used(fs, b) && !(b in owner && owner[b].i == i))
  {
    hide Bit, Owned, Used;
    assert forall b :: b in owner ==> fs.sb.datastart <= b by {
      OwnedInData(fs, owner);
    }
  }

  lemma OwnedInData(fs: Fs, owner: map<nat, Slot>)
    requires Owned(fs, owner)
    ensures forall b :: b in owner ==> fs.sb.datastart <= b < fs.sb.size
  {
    hide At;
  }

  /** Every operation logged at most MAXOPBLOCKS distinct blocks, and at most seven
      where the bitmap is a single block. */
  ghost predicate Bounded(sb: Super, ops: seq<set<nat>>) {
    forall k :: 0 <= k < |ops| ==> |ops[k]| <= LogOps.MAXOPBLOCKS && (sb.size <= BPB ==> |ops[k]| <= 7)
  }

  lemma BoundedNext(sb: Super, ops: seq<set<nat>>, log: set<nat>)
    ensures Bounded(sb, [])
    ensures Bounded(sb, ops) && Bounded(sb, [log]) ==> Bounded(sb, ops + [log])
  {
    if Bounded(sb, ops) && Bounded(sb, [log]) {
      assert [log][0] == log;
    }
  }

  /** What filewrite has done after `k` bytes: nothing when the offset is past the
      end, else those bytes spliced in. */
  ghost predicate Progress(f0: Fs, o0: map<nat, Slot>, fs: Fs, owner: map<nat, Slot>, i: nat, off0: nat, data: seq<Byte>, k: nat) {
    && i < |f0.inodes| == |fs.inodes| && k <= |data|
    && Extent(fs, i, fs.inodes[i].size) && fs.inodes[i].typ != T_DEV && f0.inodes[i].size <= fs.inodes[i].size <= MAXBYTES
    && if off0 > f0.inodes[i].size then k == 0 && fs == f0 && owner == o0 else
         Spliced(f0, o0, fs, owner, i, data[..k], off0) && off0 + k <= fs.inodes[i].size
  }

  lemma ProgressStart(fs: Fs, owner: map<nat, Slot>, i: nat, off0: nat, data: seq<Byte>)
    requires Inv(fs, owner) && i < |fs.inodes| && Extent(fs, i, fs.inodes[i].size) && fs.inodes[i].typ != T_DEV
    ensures Progress(fs, owner, fs, owner, i, off0, data, 0) && fs.inodes[i].size <= MAXBYTES
  {
    if off0 <= fs.inodes[i].size {
      SplicedStart(fs, owner, i, off0);
      assert data[..0] == [];
    }
  }

  /** filewrite's chunk: ((MAXOPBLOCKS-1-1-2) / 2) * 512 bytes. */
  const CHUNK: nat := 3 * BSIZE

  /** The blocks that `n` bytes fill if they start with one. */
  function DataBlocks(n: nat): nat {
    (n + BSIZE - 1) / BSIZE
  }

  /** The most blocks that writei logs for `n` bytes: one data block more if they do
      not start with one; for each allocated block, the indirect block among them, a
      bitmap block; the indirect block and the inode's. */
  function MostLogged(n: nat): nat {
    2 * DataBlocks(n) + 4
  }

  /** filewrite's chunk is the largest whole number of blocks that keeps to
      MAXOPBLOCKS. */
  lemma ChunkIsLargest(m: nat)
    ensures m * BSIZE <= CHUNK <==> MostLogged(m * BSIZE) <= LogOps.MAXOPBLOCKS
    ensures CHUNK == (LogOps.MAXOPBLOCKS - 1 - 1 - 2) / 2 * 512
  {
    assert DataBlocks(m * BSIZE) == m;
  }

  /** How many of `n` bytes at `off` filewrite gets into a file of `size` bytes. */
  function Writable(size: nat, off: nat, n: nat): nat {
    if n == 0 || off > size then 0
    else if off + n <= MAXBYTES then n
    else if off > MAXBYTES then 0
    else (MAXBYTES - off) / CHUNK * CHUNK
  }

  lemma WritableAll(size: nat, off: nat, n: nat)
    requires n == 0 || (off <= size && off + n <= MAXBYTES)
    ensures Writable(size, off, n) == n
  {
  }

  /** `k` bytes are `c` whole chunks. */
  predicate Whole(k: nat, c: nat) {
    k == c * CHUNK
  }

  lemma WholeChunks(k: nat, c: nat)
    ensures Whole(0, 0) && (Whole(k, c) ==> Whole(k + CHUNK, c + 1))
  {
  }

  lemma WritableStops(size: nat, off: nat, n: nat, k: nat, c: nat, n1: nat)
    requires Whole(k, c) && k < n && n1 == Min(n - k, CHUNK)
    requires if off > size then k == 0 else off + k <= MAXBYTES < off + k + n1
    ensures Writable(size, off, n) == k
  {
    if off <= size {
      assert (MAXBYTES - off) / CHUNK == c;
    }
  }

  lemma SplicedStart(fs: Fs, owner: map<nat, Slot>, i: nat, off0: nat)
    requires Inv(fs, owner) && i < |fs.inodes| && Extent(fs, i, fs.inodes[i].size) && off0 <= fs.inodes[i].size
    ensures Spliced(fs, owner, fs, owner, i, [], off0)
  {
    SpliceNothing(Bytes(fs, owner, i, fs.inodes[i].size), off0);
  }

  /** Writing two pieces one after the other is writing both at once. */
  lemma SplicedOn(f0: Fs, o0: map<nat, Slot>, f1: Fs, o1: map<nat, Slot>, f2: Fs, o2: map<nat, Slot>,
                  i: nat, s: seq<Byte>, t: seq<Byte>, off0: nat)
    requires Spliced(f0, o0, f1, o1, i, s, off0) && Spliced(f1, o1, f2, o2, i, t, off0 + |s|)
    ensures Spliced(f0, o0, f2, o2, i, s + t, off0)
  {
    hide Inv, Extent, Synced;
    SpliceOn(Bytes(f0, o0, i, f0.inodes[i].size), off0, s, t);
  }

  lemma SpliceParts(f0: Fs, o0: map<nat, Slot>, f1: Fs, o1: map<nat, Slot>, f2: Fs, o2: map<nat, Slot>,
                    i: nat, off0: nat, data: seq<Byte>, k: nat, n1: nat)
    requires k + n1 <= |data| && 0 < n1 && Spliced(f1, o1, f2, o2, i, data[k..k + n1], off0 + k)
    requires Spliced(f0, o0, f1, o1, i, data[..k], off0)
    ensures Spliced(f0, o0, f2, o2, i, data[..k + n1], off0)
    ensures i < |f2.inodes| == |f1.inodes| && Extent(f2, i, f2.inodes[i].size) && off0 + k + n1 <= f2.inodes[i].size <= MAXBYTES
    ensures f2.inodes[i].typ == f1.inodes[i].typ && f1.inodes[i].size <= f2.inodes[i].size
  {
    hide Inv, At, Synced, Bytes, OthersKept;
    assert data[..k] + data[k..k + n1] == data[..k + n1];
    SplicedOn(f0, o0, f1, o1, f2, o2, i, data[..k], data[k..k + n1], off0);
  }

  /** After the direct blocks are gone and there is no indirect block. */
  lemma NothingLeft(fs: Fs, owner: map<nat, Slot>, i: nat)
    requires Inv(fs, owner) && i < |fs.inodes| && forall k :: 0 <= k <= NDIRECT ==> fs.inodes[i].addrs[k] == 0
    ensures Without(owner, i) == owner
  {
    hide Word, Bit;
    forall b | b in owner
      ensures owner[b].i != i
    {
      HoldsNothing(fs, owner, i, b);
    }
  }

  lemma HoldsNothing(fs: Fs, owner: map<nat, Slot>, i: nat, b: nat)
    requires Owned(fs, owner) && i < |fs.inodes| && b in owner
    requires forall k :: 0 <= k <= NDIRECT ==> fs.inodes[i].addrs[k] == 0
    ensures owner[b].i != i
  {
    var s := owner[b];
    assert At(fs, s) == b != 0;
  }

  lemma WithoutBoth(owner: map<nat, Slot>, i: nat)
    ensures Without(WithoutDirect(owner, i, NDIRECT), i) == Without(owner, i)
  {
  }

  lemma TableInUse(fs: Fs, owner: map<nat, Slot>, i: nat)
    requires Inv(fs, owner) && i < |fs.inodes| && fs.inodes[i].addrs[NDIRECT] != 0
    ensures var a := fs.inodes[i].addrs[NDIRECT];
            fs.sb.datastart <= a < fs.sb.size && Used(fs, a) && !EntryBelow(owner, a, i, NINDIRECT)
  {
    hide Bit, Inv;
    var s := Addr(i, NDIRECT);
    InvShape(fs, owner);
    assert ValidSlot(fs, s) && At(fs, s) == fs.inodes[i].addrs[NDIRECT];
    InvSlot(fs, owner, s);
    InvBlock(fs, owner, At(fs, s));
    OwnedIsUsed(fs, owner, At(fs, s));
  }

  lemma OwnedIsUsed(fs: Fs, owner: map<nat, Slot>, b: nat)
    requires Inv(fs, owner) && b in owner && b < fs.sb.size
    ensures Used(fs, b)
  {
    hide Used, Owned;
  }

  lemma TableFreed(fs: Fs, owner: map<nat, Slot>, mid: Fs, f2: Fs, fs': Fs, i: nat, a: nat)
    requires Inv(fs, owner) && i < |fs.inodes| && a == fs.inodes[i].addrs[NDIRECT] != 0 && a < fs.sb.size
    requires forall k :: 0 <= k < NDIRECT ==> fs.inodes[i].addrs[k] == 0
    requires Shape(mid) && DataAndTableKept(fs, mid) && mid.inodes == fs.inodes
    requires forall b :: 0 <= b < fs.sb.size ==> (Used(mid, b) <==> Used(fs, b) && !EntryBelow(owner, b, i, NINDIRECT))
    requires Used(mid, a) && f2 == Mark(mid, a, false)
    requires fs' == f2.(inodes := f2.inodes[i := f2.inodes[i].(addrs := f2.inodes[i].addrs[NDIRECT := 0])])
    ensures Inv(fs', Without(owner, i)) && DataAndTableKept(fs, fs')
  {
    hide Word, Bit;
    BBlockInBitmap(fs.sb, a);
    assert Emptied(fs, fs', i);
    EmptiedOwned(fs, fs', owner, i);
    forall b | 0 <= b < fs.sb.size
      ensures Used(fs', b) <==> b < fs.sb.datastart || b in Without(owner, i)
    {
      UsedAfterMark(mid, a, false, b);
      SameBitmap(f2, fs', b);
      OnlySlots(fs, owner, i, a, b);
    }
  }

  /** With no direct block left, inode `i` owns its indirect block and entries. */
  lemma OnlySlots(fs: Fs, owner: map<nat, Slot>, i: nat, a: nat, b: nat)
    requires Owned(fs, owner) && i < |fs.inodes| && a == fs.inodes[i].addrs[NDIRECT] != 0
    requires forall k :: 0 <= k < NDIRECT ==> fs.inodes[i].addrs[k] == 0
    ensures b in owner && owner[b].i == i <==> b == a || EntryBelow(owner, b, i, NINDIRECT)
    ensures EntryBelow(owner, b, i, NINDIRECT) ==> b != a
  {
    hide Word;
    assert ValidSlot(fs, Addr(i, NDIRECT)) && At(fs, Addr(i, NDIRECT)) == a && SlotOk(fs, owner, Addr(i, NDIRECT));
    if b in owner && owner[b].i == i && owner[b].Addr? {
      assert BlockOk(fs, owner, b);
      assert owner[b].k == NDIRECT;
    }
  }

  lemma OthersKeptByEmptying(f0: Fs, o0: map<nat, Slot>, fs: Fs, i: nat)
    requires Inv(f0, o0) && Emptied(f0, fs, i) && Inv(fs, Without(o0, i))
    ensures OthersKept(f0, o0, fs, Without(o0, i), i)
  {
    forall x, h | x != i && Extent(f0, x, h)
      ensures Extent(fs, x, h) && Bytes(fs, Without(o0, i), x, h) == Bytes(f0, o0, x, h)
    {
      EmptiedOther(f0, o0, fs, i, x, h);
    }
  }

  lemma EmptiedByTrunc(f0: Fs, f2: Fs, i: nat)
    requires Shape(f0) && Shape(f2) && i < |f0.inodes| && DataAndTableKept(f0, f2) && FieldsOk(f2.inodes[i])
    requires forall x :: 0 <= x < |f0.inodes| && x != i ==> f2.inodes[x] == f0.inodes[x]
    requires forall k :: 0 <= k <= NDIRECT ==> f2.inodes[i].addrs[k] == 0
    ensures Emptied(f0, Iupdated(f2, i), i)
  {
    IBlockInTable(f0.sb, i);
  }

  lemma SyncedAfterTrunc(f0: Fs, f2: Fs, i: nat, x: nat)
    requires Shape(f0) && Shape(f2) && f2.sb == f0.sb && i < |f0.inodes| && x < |f0.inodes| && FieldsOk(f2.inodes[i])
    requires forall b :: 0 <= b < f0.sb.bmapstart ==> f2.blocks[b] == f0.blocks[b]
    requires x != i ==> f2.inodes[x] == f0.inodes[x] && Synced(f0, x)
    ensures Synced(Iupdated(f2, i), x)
  {
    SyncedByIupdate(f2, i, x);
    SameOnDisk(f0, f2, x);
  }

  lemma TruncDone(f0: Fs, o0: map<nat, Slot>, f2: Fs, i: nat)
    requires Inv(f0, o0) && i < |f0.inodes| && Inv(f2, Without(o0, i))
    requires DataAndTableKept(f0, f2) && FieldsOk(f2.inodes[i]) && Inv(Iupdated(f2, i), Without(o0, i))
    requires forall x :: 0 <= x < |f0.inodes| && x != i ==> f2.inodes[x] == f0.inodes[x]
    requires forall k :: 0 <= k <= NDIRECT ==> f2.inodes[i].addrs[k] == 0
    ensures var fs := Iupdated(f2, i);
            Emptied(f0, fs, i) && Extent(fs, i, 0) && OthersKept(f0, o0, fs, Without(o0, i), i)
  {
    EmptiedByTrunc(f0, f2, i);
    EmptiedSelf(f0, Iupdated(f2, i), i);
    OthersKeptByEmptying(f0, o0, Iupdated(f2, i), i);
  }

  lemma TruncSynced(f0: Fs, f2: Fs, i: nat)
    requires Shape(f0) && Shape(f2) && DataAndTableKept(f0, f2) && i < |f0.inodes| && FieldsOk(f2.inodes[i])
    requires forall x :: 0 <= x < |f0.inodes| && x != i ==> f2.inodes[x] == f0.inodes[x]
    ensures forall x :: 0 <= x < |f0.inodes| && (x == i || Synced(f0, x)) ==> Synced(Iupdated(f2, i), x)
  {
    hide Synced, Iupdated;
    forall x | 0 <= x < |f0.inodes| && (x == i || Synced(f0, x))
      ensures Synced(Iupdated(f2, i), x)
    {
      SyncedAfterTrunc(f0, f2, i, x);
    }
  }

  /** Outside the bitmap no block changed, and the inode count is the same. */
  ghost predicate DataAndTableKept(fs: Fs, fs': Fs) {
    && fs'.sb == fs.sb && |fs'.blocks| == |fs.blocks| == fs.sb.size && |fs'.inodes| == |fs.inodes|
    && (forall b :: 0 <= b < fs.sb.size && !(fs.sb.bmapstart <= b < fs.sb.datastart) ==> fs'.blocks[b] == fs.blocks[b])
  }

  lemma TableKeptSame(fs: Fs, fs': Fs)
    requires fs'.sb == fs.sb && fs'.blocks == fs.blocks && |fs.blocks| == fs.sb.size && |fs'.inodes| == |fs.inodes|
    ensures DataAndTableKept(fs, fs')
  {
  }

  lemma TableKeptTwice(f0: Fs, f1: Fs, f2: Fs)
    requires DataAndTableKept(f0, f1) && DataAndTableKept(f1, f2)
    ensures DataAndTableKept(f0, f2)
  {
  }

  ghost predicate EntryBelow(owner: map<nat, Slot>, b: nat, i: nat, j: nat) {
    b in owner && owner[b].Entry? && owner[b].i == i && owner[b].j < j
  }

  lemma EntryBelowNext(fs: Fs, owner: map<nat, Slot>, c: nat, i: nat, j: nat)
    requires Inv(fs, owner) && i < |fs.inodes| && j < NINDIRECT
    ensures EntryBelow(owner, c, i, j + 1) <==> EntryBelow(owner, c, i, j) || (c != 0 && c == At(fs, Entry(i, j)))
  {
    hide Bit, At, Inv;
    InvShape(fs, owner);
    if At(fs, Entry(i, j)) != 0 {
      InvSlot(fs, owner, Entry(i, j));
    }
    if c in owner {
      InvBlock(fs, owner, c);
    }
  }

  ghost function WithoutDirect(owner: map<nat, Slot>, i: nat, k: nat): map<nat, Slot> {
    map b | b in owner && !(owner[b].Addr? && owner[b].i == i && owner[b].k < k) :: owner[b]
  }

  lemma WithoutNone(owner: map<nat, Slot>, i: nat)
    ensures WithoutDirect(owner, i, 0) == owner
  {
  }

  lemma WithoutNext(fs: Fs, owner: map<nat, Slot>, owner0: map<nat, Slot>, i: nat, k: nat)
    requires Inv(fs, owner) && owner == WithoutDirect(owner0, i, k) && i < |fs.inodes| && k < NDIRECT
    ensures WithoutDirect(owner0, i, k + 1) ==
            if fs.inodes[i].addrs[k] == 0 then owner else owner - {fs.inodes[i].addrs[k]}
  {
    hide At, Bit, Without, WithoutDirect;
    var b := fs.inodes[i].addrs[k];
    AtAddr(fs, i, k);
    assert SlotOk(fs, owner, Addr(i, k));
    forall c | c in owner
      ensures owner[c] == Addr(i, k) <==> b != 0 && c == b
    {
      assert BlockOk(fs, owner, c);
    }
    hide Inv;
    WithoutStep(owner, owner0, i, k, b);
  }

  lemma AtAddr(fs: Fs, i: nat, k: nat)
    requires Shape(fs) && i < |fs.inodes| && k <= NDIRECT
    ensures ValidSlot(fs, Addr(i, k)) && At(fs, Addr(i, k)) == fs.inodes[i].addrs[k]
  {
  }

  lemma WithoutStep(owner: map<nat, Slot>, owner0: map<nat, Slot>, i: nat, k: nat, b: nat)
    requires owner == WithoutDirect(owner0, i, k)
    requires forall c :: c in owner ==> (owner[c] == Addr(i, k) <==> b != 0 && c == b)
    ensures WithoutDirect(owner0, i, k + 1) == if b == 0 then owner else owner - {b}
  {
    var r := WithoutDirect(owner0, i, k + 1);
    assert forall c :: c in r <==> c in owner && owner[c] != Addr(i, k);
  }

  /** The size field takes no part in ownership or contents. */
  lemma SizeSet(fs: Fs, owner: map<nat, Slot>, i: nat, size: nat)
    requires Inv(fs, owner) && i < |fs.inodes|
    ensures var fs' := fs.(inodes := fs.inodes[i := fs.inodes[i].(size := size)]);
            && Inv(fs', owner)
            && forall x, h :: Extent(fs, x, h) ==> Extent(fs', x, h) && Bytes(fs', owner, x, h) == Bytes(fs, owner, x, h)
  {
    hide Word, Bit;
    var fs' := fs.(inodes := fs.inodes[i := fs.inodes[i].(size := size)]);
    assert Shape(fs');
    assert forall s :: ValidSlot(fs, s) ==> At(fs', s) == At(fs, s);
    hide At;
    OwnedMoved(fs, fs', owner);
    forall b | 0 <= b < fs.sb.size
      ensures Used(fs', b) == Used(fs, b)
    {
      SameBitmap(fs, fs', b);
    }
    forall x, h | Extent(fs, x, h)
      ensures Extent(fs', x, h) && Bytes(fs', owner, x, h) == Bytes(fs, owner, x, h)
    {
      SameBytes(fs, owner, fs', owner, x, h);
    }
  }

  /** Inode `i`'s bytes are the old ones with `src` spliced in at `off0`; every
      other inode and file is as before; and an inode whose disk copy was up to
      date still has one, also when blocks were allocated to it. */
  ghost predicate Spliced(f0: Fs, o0: map<nat, Slot>, fs: Fs, owner: map<nat, Slot>, i: nat, src: seq<Byte>, off0: nat) {
    && Inv(f0, o0) && i < |f0.inodes| && Extent(f0, i, f0.inodes[i].size) && off0 <= f0.inodes[i].size
    && OthersKept(f0, o0, fs, owner, i)
    && |fs.inodes| == |f0.inodes| && (forall x :: 0 <= x < |f0.inodes| && x != i ==> fs.inodes[x] == f0.inodes[x])
    && fs.inodes[i] == f0.inodes[i].(addrs := fs.inodes[i].addrs, size := Max(f0.inodes[i].size, off0 + |src|))
    && Extent(fs, i, fs.inodes[i].size)
    && Bytes(fs, owner, i, fs.inodes[i].size) == Splice(Bytes(f0, o0, i, f0.inodes[i].size), off0, src)
    && forall x :: 0 <= x < |f0.inodes| && Synced(f0, x) ==> Synced(fs, x)
  }

  lemma SplicedInPlace(f0: Fs, o0: map<nat, Slot>, fs: Fs, owner: map<nat, Slot>, i: nat, src: seq<Byte>, off0: nat)
    requires i < |f0.inodes| && Written(f0, o0, fs, owner, i, f0.inodes[i].size, off0, src)
    requires off0 + |src| <= f0.inodes[i].size
    ensures Spliced(f0, o0, fs, owner, i, src, off0)
  {
    forall x | 0 <= x < |f0.inodes| && Synced(f0, x)
      ensures Synced(fs, x)
    {
      SameOnDisk(f0, fs, x);
    }
  }

  lemma SplicedGrown(f0: Fs, o0: map<nat, Slot>, f1: Fs, fs: Fs, owner: map<nat, Slot>, i: nat, src: seq<Byte>, off0: nat)
    requires i < |f0.inodes| && Written(f0, o0, f1, owner, i, f0.inodes[i].size, off0, src)
    requires off0 + |src| > f0.inodes[i].size && Inv(fs, owner)
    requires fs.inodes == f1.inodes[i := f1.inodes[i].(size := off0 + |src|)]
    requires forall x, h :: Extent(f1, x, h) ==> Extent(fs, x, h) && Bytes(fs, owner, x, h) == Bytes(f1, owner, x, h)
    requires forall x :: 0 <= x < |fs.inodes| && (x == i || Synced(f0, x)) ==> Synced(fs, x)
    ensures Spliced(f0, o0, fs, owner, i, src, off0)
  {
    forall x, h | x != i && Extent(f0, x, h)
      ensures Extent(fs, x, h) && Bytes(fs, owner, x, h) == Bytes(f0, o0, x, h)
    {
      assert Extent(f1, x, h);
    }
  }

  /** writei's own bounds check. */
  predicate Fits(size: nat, off: nat, n: nat) {
    off <= size && off + n < WORD_LIMIT && off + n <= MAXBYTES
  }

  /** What one round of writei's loop does to the state. */
  ghost predicate ChunkDone(fs: Fs, owner: map<nat, Slot>, fs': Fs, owner': map<nat, Slot>,
                            i: nat, hi: nat, off: nat, chunk: seq<Byte>) {
    var end := Max(hi, off + |chunk|);
    && Inv(fs, owner) && Extent(fs, i, hi) && off <= hi
    && Inv(fs', owner') && Extent(fs', i, end)
    && Bytes(fs', owner', i, end) == Splice(Bytes(fs, owner, i, hi), off, chunk)
    && OthersKept(fs, owner, fs', owner', i) && MetaKept(fs, fs', i)
    && (fs'.inodes != fs.inodes ==> hi < off + |chunk|)
  }

  /** What one round logs: the data block, a bitmap block if that is new, and the
      indirect block, with its bitmap block if that is new. */
  ghost predicate ChunkLogged(fs: Fs, fs': Fs, i: nat, hi: nat, off: nat,
                              log: set<nat>, log': set<nat>, addr: nat, bits: set<nat>) {
    && Shape(fs) && Shape(fs') && fs'.sb == fs.sb && i < |fs.inodes|
    && log' <= log + {addr} + bits + Table(fs', i)
    && (fs.inodes[i].addrs[NDIRECT] != 0 ==> fs'.inodes[i].addrs[NDIRECT] == fs.inodes[i].addrs[NDIRECT])
    && |bits| <= (if hi <= off / BSIZE * BSIZE then 1 else 0) +
                 (if fs'.inodes[i].addrs[NDIRECT] != fs.inodes[i].addrs[NDIRECT] then 1 else 0)
    && (forall x :: x in bits ==> InBitmap(fs.sb, x))
  }

  /** The state of writei's loop after writing `done` at `off0`. */
  ghost predicate Written(f0: Fs, o0: map<nat, Slot>, fs: Fs, owner: map<nat, Slot>,
                          i: nat, size0: nat, off0: nat, done: seq<Byte>) {
    var hi := Max(size0, off0 + |done|);
    && Inv(f0, o0) && Extent(f0, i, size0) && off0 <= size0
    && Inv(fs, owner) && Extent(fs, i, hi)
    && Bytes(fs, owner, i, hi) == Splice(Bytes(f0, o0, i, size0), off0, done)
    && OthersKept(f0, o0, fs, owner, i) && MetaKept(f0, fs, i)
    && (fs.inodes != f0.inodes ==> size0 < off0 + |done|)
  }

  lemma WrittenMeta(f0: Fs, o0: map<nat, Slot>, fs: Fs, owner: map<nat, Slot>, i: nat, size0: nat, off0: nat, done: seq<Byte>)
    requires Written(f0, o0, fs, owner, i, size0, off0, done)
    ensures MetaKept(f0, fs, i) && |fs.inodes| == |f0.inodes|
  {
    hide Inv, Extent, Bytes;
  }

  lemma WriteStart(fs: Fs, owner: map<nat, Slot>, i: nat, off0: nat, n: nat, log: set<nat>)
    requires Inv(fs, owner) && i < |fs.inodes| && Extent(fs, i, fs.inodes[i].size) && off0 <= fs.inodes[i].size
    ensures Written(fs, owner, fs, owner, i, fs.inodes[i].size, off0, [])
    ensures Counted(fs, fs, i, off0, n, 0, log, log, Tally(0, {}, {}))
  {
    SpliceNothing(Bytes(fs, owner, i, fs.inodes[i].size), off0);
  }

  lemma SpliceNothing(c: seq<Byte>, off: nat)
    requires off <= |c|
    ensures Splice(c, off, []) == c
  {
  }

  lemma WrittenOn(f0: Fs, o0: map<nat, Slot>, f1: Fs, o1: map<nat, Slot>, f2: Fs, o2: map<nat, Slot>,
                  i: nat, size0: nat, off0: nat, done: seq<Byte>, tot: nat, chunk: seq<Byte>, all: seq<Byte>)
    requires all == done + chunk && tot == |done|
    requires Written(f0, o0, f1, o1, i, size0, off0, done)
    requires ChunkDone(f1, o1, f2, o2, i, Max(size0, off0 + tot), off0 + tot, chunk)
    ensures Written(f0, o0, f2, o2, i, size0, off0, all)
  {
    hide Inv, Extent;
    SpliceOn(Bytes(f0, o0, i, size0), off0, done, chunk);
  }

  /** What writei's loop has logged: rounds run, data blocks, bitmap blocks. */
  datatype Tally = Tally(rounds: nat, data: set<nat>, bits: set<nat>)

  function Table(fs: Fs, i: nat): set<nat>
    requires i < |fs.inodes| && |fs.inodes[i].addrs| == NDIRECT + 1
  {
    if fs.inodes[i].addrs[NDIRECT] != 0 then {fs.inodes[i].addrs[NDIRECT]} else {}
  }

  ghost predicate Counted(f0: Fs, fs: Fs, i: nat, off0: nat, n: nat, tot: nat, log0: set<nat>, log: set<nat>, t: Tally) {
    && Shape(f0) && Shape(fs) && fs.sb == f0.sb && i < |f0.inodes|
    && log <= log0 + t.data + t.bits + Table(fs, i)
    && (f0.inodes[i].addrs[NDIRECT] != 0 ==> fs.inodes[i].addrs[NDIRECT] == f0.inodes[i].addrs[NDIRECT])
    && off0 <= f0.inodes[i].size
    && |t.data| <= t.rounds
    && |t.bits| <= t.rounds - (if off0 % BSIZE != 0 && t.rounds > 0 then 1 else 0)
                   + (if fs.inodes[i].addrs[NDIRECT] != f0.inodes[i].addrs[NDIRECT] then 1 else 0)
    && (forall x :: x in t.bits ==> InBitmap(f0.sb, x))
    && (t.rounds == 0 ==> tot == 0)
    && (t.rounds > 0 ==> (t.rounds - 1) * BSIZE < off0 % BSIZE + n)
    && (t.rounds > 0 && tot < n ==> off0 % BSIZE + tot == t.rounds * BSIZE)
  }

  lemma CountedOn(f0: Fs, f1: Fs, f2: Fs, i: nat, off0: nat, n: nat, tot: nat, m: nat,
                  log0: set<nat>, log1: set<nat>, log: set<nat>, t: Tally, addr: nat, bits: set<nat>)
    requires Counted(f0, f1, i, off0, n, tot, log0, log1, t)
    requires tot < n && m == Min(n - tot, BSIZE - (off0 + tot) % BSIZE)
    requires ChunkLogged(f1, f2, i, Max(f0.inodes[i].size, off0 + tot), off0 + tot, log1, log, addr, bits)
    ensures Counted(f0, f2, i, off0, n, tot + m, log0, log, Tally(t.rounds + 1, t.data + {addr}, t.bits + bits))
  {
    UnionSize(t.data, {addr});
    UnionSize(t.bits, bits);
    assert Table(f1, i) <= Table(f2, i);
    if t.rounds == 0 && off0 % BSIZE != 0 {
      assert off0 / BSIZE * BSIZE < off0;
    }
    NextRound(off0, tot, m, n, t.rounds);
  }

  lemma NextRound(off0: nat, tot: nat, m: nat, n: nat, rounds: nat)
    requires tot < n && m == Min(n - tot, BSIZE - (off0 + tot) % BSIZE)
    requires if rounds == 0 then tot == 0 else off0 % BSIZE + tot == rounds * BSIZE
    ensures rounds * BSIZE < off0 % BSIZE + n
    ensures tot + m < n ==> off0 % BSIZE + tot + m == (rounds + 1) * BSIZE
  {
    if rounds > 0 {
      assert (off0 + tot) % BSIZE == 0;
    }
  }

  lemma SliceOn(src: seq<Byte>, tot: nat, m: nat)
    requires tot + m <= |src|
    ensures src[..tot] + src[tot..][..m] == src[..tot + m]
  {
  }

  /** Four data blocks at most, three of them new; one indirect block, perhaps
      new; one bitmap block per allocation; and the inode block. */
  lemma CountedBound(f0: Fs, fs: Fs, i: nat, off0: nat, n: nat, log: set<nat>, t: Tally)
    requires Counted(f0, fs, i, off0, n, n, {}, log, t)
    ensures |log| + 1 <= MostLogged(n)
    ensures f0.sb.size <= BPB ==> |log| + 1 <= DataBlocks(n) + 4
  {
    assert t.rounds <= DataBlocks(n) + if off0 % BSIZE == 0 then 0 else 1;
    var all := t.data + t.bits + Table(fs, i);
    assert |log| <= |all| by {
      assert log <= all;
      SubsetSize(log, all);
    }
    UnionSize(t.data, t.bits);
    UnionSize(t.data + t.bits, Table(fs, i));
    if f0.sb.size <= BPB {
      assert t.bits <= {f0.sb.bmapstart};
      SubsetSize(t.bits, {f0.sb.bmapstart});
    }
  }

  lemma SubsetSize<T>(a: set<T>, b: set<T>)
    requires a <= b
    ensures |a| <= |b|
  {
    assert b == a + (b - a);
  }

  /** Every other file has the same extent and the same bytes. */
  ghost predicate OthersKept(fs: Fs, owner: map<nat, Slot>, fs': Fs, owner': map<nat, Slot>, i: nat) {
    && Inv(fs, owner) && Inv(fs', owner')
    && forall x, h :: x != i && Extent(fs, x, h) ==>
         Extent(fs', x, h) && Bytes(fs', owner', x, h) == Bytes(fs, owner, x, h)
  }

  /** Inode blocks and other inodes are untouched, of inode `i` only addresses
      changed, and its indirect block is not replaced. */
  ghost predicate MetaKept(fs: Fs, fs': Fs, i: nat) {
    && Shape(fs) && Shape(fs') && fs'.sb == fs.sb && InodesKept(fs, fs', i)
    && (forall b :: 0 <= b < fs.sb.bmapstart ==> fs'.blocks[b] == fs.blocks[b])
    && (fs.inodes[i].addrs[NDIRECT] != 0 ==> fs'.inodes[i].addrs[NDIRECT] == fs.inodes[i].addrs[NDIRECT])
  }

  lemma TableKept(fs: Fs, owner: map<nat, Slot>, fs': Fs, owner': map<nat, Slot>, i: nat, bn: nat)
    requires Grew(fs, owner, fs', owner', i, bn)
    ensures fs.inodes[i].addrs[NDIRECT] != 0 ==> fs'.inodes[i].addrs[NDIRECT] == fs.inodes[i].addrs[NDIRECT]
    ensures NDIRECT <= bn ==> fs'.inodes[i].addrs[NDIRECT] != 0
  {
    hide Word, Bit;
    var t := Addr(i, NDIRECT);
    assert ValidSlot(fs, t) && At(fs, t) == fs.inodes[i].addrs[NDIRECT] && At(fs', t) == fs'.inodes[i].addrs[NDIRECT];
    if NDIRECT <= bn {
      assert SlotOf(i, bn) == Entry(i, bn - NDIRECT);
    }
  }

  lemma MappedInData(fs: Fs, owner: map<nat, Slot>, i: nat, bn: nat)
    requires Inv(fs, owner) && i < |fs.inodes| && bn < MAXFILE && At(fs, SlotOf(i, bn)) != 0
    ensures fs.sb.datastart <= At(fs, SlotOf(i, bn)) < fs.sb.size
  {
    hide At, Bit;
    assert ValidSlot(fs, SlotOf(i, bn));
    InvSlot(fs, owner, SlotOf(i, bn));
  }

  /** All of what one round of writei does to the state. */
  lemma ChunkEffect(fs: Fs, owner: map<nat, Slot>, fs': Fs, owner': map<nat, Slot>,
                    i: nat, hi: nat, off: nat, chunk: seq<Byte>)
    requires Grew(fs, owner, fs', owner', i, off / BSIZE) && Extent(fs, i, hi)
    requires At(fs, SlotOf(i, off / BSIZE)) != 0 ==> fs' == fs
    requires off <= hi && 0 < |chunk| <= BSIZE - off % BSIZE
    ensures At(fs', SlotOf(i, off / BSIZE)) < fs.sb.size
    ensures At(fs, SlotOf(i, off / BSIZE)) == 0 <==> hi <= off / BSIZE * BSIZE
    ensures NDIRECT <= off / BSIZE ==> fs'.inodes[i].addrs[NDIRECT] != 0
    ensures ChunkDone(fs, owner, StoreChunk(fs', i, off, chunk), owner', i, hi, off, chunk)
  {
    var bn := off / BSIZE;
    ChunkWritten(fs, owner, fs', owner', i, hi, off, chunk);
    GrewExtent(fs, owner, fs', owner', i, bn, hi, off + |chunk|);
    OthersKeptByChunk(fs, owner, fs', owner', i, hi, off, chunk);
    MetaKeptByChunk(fs, owner, fs', owner', i, off, chunk);
    FreshIffPast(fs, i, hi, off);
  }

  lemma ChunkInv(fs: Fs, owner: map<nat, Slot>, fs': Fs, owner': map<nat, Slot>, i: nat, hi: nat, off: nat, chunk: seq<Byte>)
    requires ChunkDone(fs, owner, fs', owner', i, hi, off, chunk)
    ensures Inv(fs', owner')
  {
  }

  /** What bmap and the store after it log. */
  lemma ChunkIsLogged(fs: Fs, owner: map<nat, Slot>, fs': Fs, owner': map<nat, Slot>, i: nat, hi: nat, off: nat,
                      chunk: seq<Byte>, log: set<nat>, log': set<nat>, addr: nat, bits: set<nat>)
    requires Grew(fs, owner, fs', owner', i, off / BSIZE) && Extent(fs, i, hi)
    requires off <= hi && 0 < |chunk| <= BSIZE - off % BSIZE && addr == At(fs', SlotOf(i, off / BSIZE)) < fs'.sb.size
    requires At(fs, SlotOf(i, off / BSIZE)) != 0 ==> fs' == fs
    requires log' <= log + {addr} + bits + if NDIRECT <= off / BSIZE then {fs'.inodes[i].addrs[NDIRECT]} else {}
    requires |bits| <= (if At(fs, SlotOf(i, off / BSIZE)) == 0 then 1 else 0) +
                       (if NDIRECT <= off / BSIZE && fs.inodes[i].addrs[NDIRECT] == 0 then 1 else 0)
    requires forall x :: x in bits ==> InBitmap(fs.sb, x)
    ensures ChunkLogged(fs, StoreChunk(fs', i, off, chunk), i, hi, off, log, log' + {addr}, addr, bits)
  {
    hide At, Bit, Owned;
    TableKept(fs, owner, fs', owner', i, off / BSIZE);
    FreshIffPast(fs, i, hi, off);
  }

  lemma FreshIffPast(fs: Fs, i: nat, hi: nat, off: nat)
    requires Extent(fs, i, hi) && off / BSIZE < MAXFILE
    ensures At(fs, SlotOf(i, off / BSIZE)) == 0 <==> hi <= off / BSIZE * BSIZE
    ensures off / BSIZE * BSIZE <= off
  {
  }

  lemma MetaKeptByChunk(fs: Fs, owner: map<nat, Slot>, fs': Fs, owner': map<nat, Slot>, i: nat, off: nat, chunk: seq<Byte>)
    requires Grew(fs, owner, fs', owner', i, off / BSIZE) && off % BSIZE + |chunk| <= BSIZE
    ensures At(fs', SlotOf(i, off / BSIZE)) < fs.sb.size
    ensures MetaKept(fs, StoreChunk(fs', i, off, chunk), i)
    ensures NDIRECT <= off / BSIZE ==> fs'.inodes[i].addrs[NDIRECT] != 0
  {
    hide At, Inv, Store, MetaKept;
    TableKept(fs, owner, fs', owner', i, off / BSIZE);
    MappedInData(fs', owner', i, off / BSIZE);
    var w := StoreChunk(fs', i, off, chunk);
    MetaKeptAbove(fs, fs', w, i, At(fs', SlotOf(i, off / BSIZE)));
  }

  lemma MetaKeptAbove(fs: Fs, fs': Fs, w: Fs, i: nat, a: nat)
    requires MetaKept(fs, fs', i) && w.sb == fs'.sb && w.inodes == fs'.inodes && |w.blocks| == |fs'.blocks|
    requires fs.sb.datastart <= a && forall b :: 0 <= b < fs.sb.size && b != a ==> w.blocks[b] == fs'.blocks[b]
    ensures MetaKept(fs, w, i)
  {
  }

  lemma OthersKeptByChunk(fs: Fs, owner: map<nat, Slot>, fs': Fs, owner': map<nat, Slot>,
                          i: nat, hi: nat, off: nat, chunk: seq<Byte>)
    requires Grew(fs, owner, fs', owner', i, off / BSIZE) && Extent(fs, i, hi)
    requires off <= hi && 0 < |chunk| <= BSIZE - off % BSIZE
    requires Extent(fs', i, Max(hi, off + |chunk|)) && At(fs', SlotOf(i, off / BSIZE)) < fs.sb.size
    requires Inv(StoreChunk(fs', i, off, chunk), owner')
    ensures OthersKept(fs, owner, StoreChunk(fs', i, off, chunk), owner', i)
  {
    var w := StoreChunk(fs', i, off, chunk);
    forall x, h | x != i && Extent(fs, x, h)
      ensures Extent(w, x, h) && Bytes(w, owner', x, h) == Bytes(fs, owner, x, h)
    {
      GrewOther(fs, owner, fs', owner', i, off / BSIZE, x, h);
      StoredOther(fs', owner', i, off, chunk, Max(hi, off + |chunk|), x, h);
    }
  }

  /** A run of file bytes inside one block is a run of that block's bytes. */
  lemma BlockSlice(fs: Fs, owner: map<nat, Slot>, i: nat, hi: nat, off: nat, m: nat)
    requires Inv(fs, owner) && Extent(fs, i, hi) && off < off + m <= hi && m <= BSIZE - off % BSIZE
    ensures var a := At(fs, SlotOf(i, off / BSIZE));
            && a < fs.sb.size
            && fs.blocks[a][off % BSIZE..off % BSIZE + m] == Bytes(fs, owner, i, hi)[off..off + m]
  {
    hide At, Bit, Owned, BitsOk;
    MappedBelow(fs, owner, i, hi, off);
    var a := At(fs, SlotOf(i, off / BSIZE));
    var x, y := fs.blocks[a][off % BSIZE..off % BSIZE + m], Bytes(fs, owner, i, hi)[off..off + m];
    forall k | 0 <= k < m
      ensures x[k] == y[k]
    {
      assert (off + k) / BSIZE == off / BSIZE && (off + k) % BSIZE == off % BSIZE + k;
    }
  }

  lemma EmptyTable(fs: Fs, owner: map<nat, Slot>, a: nat, i: nat, j: nat)
    requires Inv(fs, owner) && fs.sb.datastart <= a < fs.sb.size && !Used(fs, a)
    requires i < |fs.inodes| && fs.inodes[i].addrs[NDIRECT] == 0 && j < NINDIRECT
    ensures At(fs, Entry(i, j)) == 0 == At(AssignAddr(fs, a, i, NDIRECT), Entry(i, j))
  {
    AddrAssigned(fs, owner, a, i, NDIRECT);
    assert ValidSlot(fs, Entry(i, j));
  }
}
