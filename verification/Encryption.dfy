/** Encrypted pages: every byte complemented, the present bit off and the
    encrypted bit on, so that the next access faults and decrypts. */
module Encryption {
  import opened Common
  import opened PageMap

  /** XOR 0xFF. */
  function Flip(x: Byte): Byte {
    255 - x
  }

  function FlipAll(data: seq<Byte>): seq<Byte> {
    seq(|data|, i requires 0 <= i < |data| => Flip(data[i]))
  }

  lemma FlipTwice(data: seq<Byte>)
    ensures FlipAll(FlipAll(data)) == data
  {
  }

  lemma FlipDiffers(data: seq<Byte>)
    requires data != []
    ensures FlipAll(data) != data
  {
    assert FlipAll(data)[0] != data[0];
  }

  /** The bytes a program should see on page `v` of `d`. */
  ghost function Plain(pages: seq<Page>, d: nat, v: nat): seq<Byte> {
    var x := Flat(pages, d, v);
    if Mapped(x) && x.ppn < |pages| && pages[x.ppn].Bytes? then
      if x.e then FlipAll(pages[x.ppn].data) else pages[x.ppn].data
    else []
  }

  /** Every page of every address space but page `v` of `d` is as it was, bytes
      and all. */
  ghost predicate OthersKept(r: Ram, r': Ram, d: nat, v: nat) {
    forall e, u :: IsDir(r, e) && 0 <= u < USERPAGES && (e != d || u != v) ==>
      Flat(r'.pages, e, u) == Flat(r.pages, e, u) && Plain(r'.pages, e, u) == Plain(r.pages, e, u)
  }

  /** New flags and bytes for page `v` of `d`. */
  function Recoded(r: Ram, d: nat, v: nat, x: Pte, data: seq<Byte>): Ram
    requires Leafy(r, d, v) && x.ppn < |r.pages|
  {
    r.(pages := SetLeaf(r, d, v, x)[x.ppn := Bytes(data)])
  }

  lemma RecodedKeeps(r: Ram, d: nat, v: nat, x: Pte, data: seq<Byte>)
    requires Inv(r) && IsDir(r, d) && v < USERPAGES && Mapped(Flat(r.pages, d, v))
    requires x.ppn == Flat(r.pages, d, v).ppn && x.p != x.e && |data| == PGSIZE
    ensures Leafy(r, d, v) && x.ppn < |r.pages| && Inv(Recoded(r, d, v, x, data))
    ensures Flat(Recoded(r, d, v, x, data).pages, d, v) == x
    ensures OthersKept(r, Recoded(r, d, v, x, data), d, v)
  {
    assert LeafOk(r, d, v);
    ReflagKeepsInv(r, d, v, x);
    SetLeafMaps(r, d, v, x);
    HasTable(r, d, v);
    var m := r.(pages := SetLeaf(r, d, v, x));
    SetDataKeepsInv(m, x.ppn, data);
    var r' := Recoded(r, d, v, x, data);
    assert SameDir(m, r', d) by {
      assert IsDir(m, d);
    }
    forall e, u | IsDir(r, e) && 0 <= u < USERPAGES && (e != d || u != v)
      ensures Flat(r'.pages, e, u) == Flat(r.pages, e, u) && Plain(r'.pages, e, u) == Plain(r.pages, e, u)
    {
      PlainKept(r, m, r', d, v, x, e, u);
    }
  }

  /** Only the entry of page `v` of `d` changes. */
  lemma RecodedMaps(r: Ram, d: nat, v: nat, x: Pte, data: seq<Byte>)
    requires Inv(r) && IsDir(r, d) && v < USERPAGES && Mapped(Flat(r.pages, d, v))
    requires x.ppn == Flat(r.pages, d, v).ppn && x.p != x.e
    ensures Leafy(r, d, v) && x.ppn < |r.pages|
    ensures var r' := Recoded(r, d, v, x, data);
            && (forall i :: 0 <= i < NENTRIES ==> EntryIn(r'.pages, d, i) == EntryIn(r.pages, d, i))
            && (forall u :: 0 <= u < ALLPAGES && u != v ==> Flat(r'.pages, d, u) == Flat(r.pages, d, u))
  {
    assert LeafOk(r, d, v);
    ReflagKeepsInv(r, d, v, x);
    SetLeafMaps(r, d, v, x);
    var m := r.(pages := SetLeaf(r, d, v, x));
    var r' := Recoded(r, d, v, x, data);
    OutsideTables(m, r', x.ppn);
    assert SameDir(m, r', d) by {
      assert IsDir(m, d);
    }
  }

  lemma PlainKept(r: Ram, m: Ram, r': Ram, d: nat, v: nat, x: Pte, e: nat, u: nat)
    requires Inv(r) && IsDir(r, d) && v < USERPAGES && Leafy(r, d, v) && m == r.(pages := SetLeaf(r, d, v, x))
    requires EntryIn(r.pages, d, v / NENTRIES).p && x.ppn < |r.own| && r.own[x.ppn] == User(d, v)
    requires IsDir(r, e) && u < USERPAGES && (e != d || u != v)
    requires Inv(m) && r'.own == m.own && SameDirs(m, r') && |r'.pages| == |m.pages|
    requires forall g :: 0 <= g < |m.pages| && g != x.ppn ==> r'.pages[g] == m.pages[g]
    ensures Flat(r'.pages, e, u) == Flat(r.pages, e, u) && Plain(r'.pages, e, u) == Plain(r.pages, e, u)
  {
    SetLeafMaps(r, d, v, x);
    HasTable(r, d, v);
    assert IsDir(m, e) && SameDir(m, r', e);
    var y := Flat(r.pages, e, u);
    assert LeafOk(r, e, u);
    if Mapped(y) {
      assert FrameOk(r, y.ppn);
    }
  }

  // ------------------------------------------------------------ operations

  /** uva2ka: the frame of a user page. Where there is no table it reads the entry
      through address 0, that is from whatever the process keeps there: `Wild`. */
  datatype Lookup = Wild | Null | Frame(f: nat)

  function Uva2ka(pages: seq<Page>, d: nat, v: nat): Lookup {
    if !EntryIn(pages, d, v / NENTRIES).p then Wild
    else
      var x := Flat(pages, d, v);
      if !Mapped(x) || !x.u then Null else Frame(x.ppn)
  }

  /** The entry translate_and_set leaves. */
  function Sealed(x: Pte): Pte {
    x.(e := true, p := false, a := false)
  }

  /** What the kernel's half holds: pages that are present and not the user's. */
  ghost predicate KernelOnly(r: Ram, d: nat) {
    forall v :: USERPAGES <= v < ALLPAGES ==> KernelPage(Flat(r.pages, d, v))
  }

  predicate KernelPage(x: Pte) {
    x == NOPTE || (x.p && !x.u && !x.e)
  }

  /** Every page reads as it did. */
  ghost predicate PlainKeptAll(r: Ram, r': Ram) {
    forall e, u :: IsDir(r, e) && 0 <= u < USERPAGES ==> Plain(r'.pages, e, u) == Plain(r.pages, e, u)
  }

  /** Page `v` of `d` has bytes to work on. */
  predicate Backed(r: Ram, d: nat, v: nat) {
    var f := Flat(r.pages, d, v).ppn;
    Leafy(r, d, v) && f < |r.pages| && r.pages[f].Bytes? && f != EntryIn(r.pages, d, v / NENTRIES).ppn
  }

  lemma MappedIsBacked(r: Ram, d: nat, v: nat)
    requires Inv(r) && IsDir(r, d) && v < USERPAGES && Mapped(Flat(r.pages, d, v))
    ensures Backed(r, d, v) && |r.pages[Flat(r.pages, d, v).ppn].data| == PGSIZE
  {
    assert LeafOk(r, d, v) && FrameOk(r, Flat(r.pages, d, v).ppn);
    HasTable(r, d, v);
  }

  /** Page `v` encrypted: its bytes complemented, its entry sealed. */
  function SealedAt(r: Ram, d: nat, v: nat): Ram {
    var x := Flat(r.pages, d, v);
    if Backed(r, d, v) then Recoded(r, d, v, Sealed(x), FlipAll(r.pages[x.ppn].data)) else r
  }

  lemma Seals(r: Ram, d: nat, v: nat)
    requires Inv(r) && IsDir(r, d) && v < USERPAGES && Flat(r.pages, d, v).p
    ensures var r' := SealedAt(r, d, v);
            && Inv(r') && PlainKeptAll(r, r') && Flat(r'.pages, d, v) == Sealed(Flat(r.pages, d, v)) && OthersKept(r, r', d, v)
  {
    var x := Flat(r.pages, d, v);
    MappedIsBacked(r, d, v);
    assert LeafOk(r, d, v);
    var data := r.pages[x.ppn].data;
    RecodedKeeps(r, d, v, Sealed(x), FlipAll(data));
    FlipTwice(data);
    var r' := Recoded(r, d, v, Sealed(x), FlipAll(data));
    hide Inv, Flat;
    assert PlainKeptAll(r, r');
  }

  /** The first page from `v` on, and before `end`, that is not encrypted. */
  ghost function FirstPlain(r: Ram, d: nat, v: nat, end: int): (w: nat)
    ensures v <= w && (w < end ==> !Flat(r.pages, d, w).e) && (w <= end || w == v)
    ensures forall u :: v <= u < w ==> Flat(r.pages, d, u).e
    decreases end - v
  {
    if v >= end || !Flat(r.pages, d, v).e then v else FirstPlain(r, d, v + 1, end)
  }

  /** Every page asked for is the user's. */
  ghost predicate AllFrames(r: Ram, d: nat, v: nat, len: int) {
    forall u :: v <= u < v + len ==> u < ALLPAGES && Uva2ka(r.pages, d, u).Frame?
  }

  /** What mencrypt leaves: the first page that is not encrypted yet is encrypted. */
  ghost function Mencrypted(r: Ram, d: nat, v: nat, len: int): Ram {
    var w := FirstPlain(r, d, v, v + len);
    if AllFrames(r, d, v, len) && w < v + len then SealedAt(r, d, w) else r
  }

  lemma MencryptedKeeps(r: Ram, d: nat, v: nat, len: int)
    requires Inv(r) && IsDir(r, d) && KernelOnly(r, d)
    ensures var r', w := Mencrypted(r, d, v, len), FirstPlain(r, d, v, v + len);
            && Inv(r') && PlainKeptAll(r, r')
            && (AllFrames(r, d, v, len) && w < v + len ==>
                  w < USERPAGES && Flat(r.pages, d, w).p && Flat(r.pages, d, w).u && Flat(r'.pages, d, w) == Sealed(Flat(r.pages, d, w))
                  && OthersKept(r, r', d, w))
  {
    var w := FirstPlain(r, d, v, v + len);
    if AllFrames(r, d, v, len) && w < v + len {
      assert Uva2ka(r.pages, d, w).Frame?;
      Seals(r, d, w);
    }
  }

  lemma FrameIsUser(r: Ram, d: nat, v: nat)
    requires KernelOnly(r, d) && v < ALLPAGES && Uva2ka(r.pages, d, v).Frame?
    ensures v < USERPAGES
  {
  }

  lemma MencryptedNot(r: Ram, d: nat, v: nat, len: int, u: nat)
    requires v <= u < v + len && !Uva2ka(r.pages, d, u).Frame?
    ensures Mencrypted(r, d, v, len) == r && !AllFrames(r, d, v, len)
  {
  }

  /** The encrypt stage got to page `s`. */
  lemma MencryptedAt(r: Ram, d: nat, v: nat, len: int, s: nat)
    requires Inv(r) && IsDir(r, d) && KernelOnly(r, d) && AllFrames(r, d, v, len) && v <= s
    requires FirstPlain(r, d, v, v + len) == FirstPlain(r, d, s, v + len)
    requires s >= v + len || !Flat(r.pages, d, s).e
    ensures Mencrypted(r, d, v, len) == if s < v + len then SealedAt(r, d, s) else r
    ensures s < v + len ==> s < USERPAGES && Flat(r.pages, d, s).p && Flat(r.pages, d, s).u
    ensures s < v + len ==> Flat(r.pages, d, s).ppn < |r.pages| && r.pages[Flat(r.pages, d, s).ppn].Bytes?
  {
    if s < v + len {
      assert Uva2ka(r.pages, d, s).Frame?;
      MappedIsBacked(r, d, s);
    }
  }

  /** All or nothing is not what mencrypt does: the range is encrypted afterwards if
      and only if at most one page of it was not before. */
  lemma RangeSealed(r: Ram, d: nat, v: nat, len: int)
    requires Inv(r) && IsDir(r, d) && KernelOnly(r, d) && AllFrames(r, d, v, len)
    ensures var r', w := Mencrypted(r, d, v, len), FirstPlain(r, d, v, v + len);
            (forall u :: v <= u < v + len ==> Flat(r'.pages, d, u).e) <==>
            (forall u :: w < u < v + len ==> Flat(r.pages, d, u).e)
  {
    var r', w := Mencrypted(r, d, v, len), FirstPlain(r, d, v, v + len);
    MencryptedKeeps(r, d, v, len);
    hide Inv, Flat, SealedAt;
    forall u | v <= u < v + len
      ensures u < USERPAGES && (Flat(r'.pages, d, u).e <==> u == w || Flat(r.pages, d, u).e)
    {
      assert Uva2ka(r.pages, d, u).Frame?;
    }
  }

  /** mdecrypt goes on to complement the page. */
  predicate Decrypts(r: Ram, d: nat, v: nat) {
    var x := Flat(r.pages, d, v);
    x.u && Backed(r, d, v) && r.pages[x.ppn].data != [] && r.pages[x.ppn].data[0] != 0
  }

  /** What mdecrypt leaves of a page that has an entry: present, and complemented if
      it got that far. */
  function UnsealedAt(r: Ram, d: nat, v: nat): Ram {
    var x := Flat(r.pages, d, v);
    var y := x.(e := false, p := true);
    if !Leafy(r, d, v) then r
    else if Decrypts(r, d, v) then Recoded(r, d, v, y, FlipAll(r.pages[x.ppn].data))
    else r.(pages := SetLeaf(r, d, v, y))
  }

  lemma Unseals(r: Ram, d: nat, v: nat)
    requires Inv(r) && IsDir(r, d) && v < USERPAGES && Mapped(Flat(r.pages, d, v))
    ensures var r', x := UnsealedAt(r, d, v), Flat(r.pages, d, v);
            && Inv(r') && OthersKept(r, r', d, v) && Flat(r'.pages, d, v) == x.(e := false, p := true)
            && (Plain(r'.pages, d, v) == Plain(r.pages, d, v) <==> (x.e <==> Decrypts(r, d, v)))
            && (!(x.e <==> Decrypts(r, d, v)) ==> Plain(r'.pages, d, v) == FlipAll(Plain(r.pages, d, v)))
            && (forall i :: 0 <= i < NENTRIES ==> EntryIn(r'.pages, d, i) == EntryIn(r.pages, d, i))
            && (forall u :: 0 <= u < ALLPAGES && u != v ==> Flat(r'.pages, d, u) == Flat(r.pages, d, u))
  {
    var x := Flat(r.pages, d, v);
    MappedIsBacked(r, d, v);
    var data := r.pages[x.ppn].data;
    var y, data' := x.(e := false, p := true), if Decrypts(r, d, v) then FlipAll(data) else data;
    assert LeafOk(r, d, v);
    RecodedKeeps(r, d, v, y, data');
    RecodedMaps(r, d, v, y, data');
    assert UnsealedAt(r, d, v) == Recoded(r, d, v, y, data') by {
      assert SetLeaf(r, d, v, y) == SetLeaf(r, d, v, y)[x.ppn := Bytes(data)];
    }
    FlipDiffers(data);
    FlipTwice(data);
    hide Inv, EntryIn, OthersKept, Recoded, UnsealedAt, Decrypts;
  }

  /** Encrypting a page and decrypting it brings its bytes back if and only if the
      first of them is not 0xFF. */
  lemma EncryptThenDecrypt(r: Ram, d: nat, v: nat)
    requires Inv(r) && IsDir(r, d) && v < USERPAGES && Flat(r.pages, d, v).p && Flat(r.pages, d, v).u
    ensures var t := UnsealedAt(SealedAt(r, d, v), d, v);
            && Flat(t.pages, d, v) == Flat(r.pages, d, v).(a := false)
            && |Plain(r.pages, d, v)| == PGSIZE
            && (Plain(t.pages, d, v) == Plain(r.pages, d, v) <==> Plain(r.pages, d, v)[0] != 255)
  {
    var s, x := SealedAt(r, d, v), Flat(r.pages, d, v);
    MappedIsBacked(r, d, v);
    assert LeafOk(r, d, v);
    Seals(r, d, v);
    assert IsDir(s, d);
    Unseals(s, d, v);
    MappedIsBacked(s, d, v);
    assert s.pages[x.ppn] == Bytes(FlipAll(r.pages[x.ppn].data));
  }

  /** Complementing the page first and then setting its entry is SealedAt. */
  lemma SetSealed(r: Ram, d: nat, v: nat, pages: seq<Page>)
    requires Inv(r) && IsDir(r, d) && v < USERPAGES && Flat(r.pages, d, v).p
    requires var x := Flat(r.pages, d, v);
             x.ppn < |r.pages| && r.pages[x.ppn].Bytes? && pages == r.pages[x.ppn := Bytes(FlipAll(r.pages[x.ppn].data))]
    ensures var x, t := Flat(r.pages, d, v), EntryIn(r.pages, d, v / NENTRIES).ppn;
            && Leafy(r, d, v) && EntryIn(pages, d, v / NENTRIES).ppn == t && t < |pages| && pages[t] == r.pages[t]
            && r.(pages := SetEntry(pages, t, v % NENTRIES, Sealed(x))) == SealedAt(r, d, v)
  {
    var x, t := Flat(r.pages, d, v), EntryIn(r.pages, d, v / NENTRIES).ppn;
    assert LeafOk(r, d, v);
    HasTable(r, d, v);
    assert r.own[x.ppn].User? && x.ppn != d && x.ppn != t;
    MappedIsBacked(r, d, v);
    assert SetEntry(pages, t, v % NENTRIES, Sealed(x)) == SetLeaf(r, d, v, Sealed(x))[x.ppn := Bytes(FlipAll(r.pages[x.ppn].data))];
  }

  /** Setting the entry first and then, perhaps, the bytes is UnsealedAt. */
  lemma SetUnsealed(r: Ram, d: nat, v: nat)
    requires Inv(r) && IsDir(r, d) && v < ALLPAGES && KernelOnly(r, d) && Flat(r.pages, d, v) != NOPTE
    ensures Leafy(r, d, v) && (Flat(r.pages, d, v).u ==> v < USERPAGES)
    ensures v < USERPAGES ==> Backed(r, d, v) && r.pages[Flat(r.pages, d, v).ppn].data != []
    ensures var x := Flat(r.pages, d, v);
            var pages := SetLeaf(r, d, v, x.(e := false, p := true));
            && (v < USERPAGES ==> pages[x.ppn] == r.pages[x.ppn])
            && UnsealedAt(r, d, v) ==
               r.(pages := if Decrypts(r, d, v) then pages[x.ppn := Bytes(FlipAll(r.pages[x.ppn].data))] else pages)
  {
    HasTable(r, d, v);
    assert LeafOk(r, d, v);
    if v < USERPAGES {
      MappedIsBacked(r, d, v);
    }
  }
}
