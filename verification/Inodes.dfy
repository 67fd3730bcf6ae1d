/** Blocks, bitmap, inodes and their addresses as values: what it means that every block in
    use belongs to exactly one place of one inode, and what a file's bytes are. */
module Inodes {
  import opened Blocks

  const NDIRECT := 58
  const NINDIRECT := WORDS
  const MAXFILE := NDIRECT + NINDIRECT
  const BPB := BSIZE * 8
  const IPB := 2

  type Addrs = a: seq<nat> | |a| == NDIRECT + 1 witness seq(NDIRECT + 1, _ => 0)

  datatype Inode = Inode(kind: nat, nlink: nat, size: nat, addrs: Addrs)

  /** From the superblock; data blocks are nmeta up to size. */
  datatype Geo = Geo(size: nat, inodestart: nat, ninodes: nat, bmapstart: nat, nmeta: nat)

  predicate ValidGeo(g: Geo) {
    && 0 < g.inodestart && g.inodestart + g.ninodes / IPB < g.bmapstart
    && 0 < g.size && g.bmapstart + (g.size - 1) / BPB < g.nmeta <= g.size < UINT
  }

  function BBLOCK(g: Geo, b: nat): nat { b / BPB + g.bmapstart }

  function IBLOCK(g: Geo, inum: nat): nat { inum / IPB + g.inodestart }

  // ---- bits ------------------------------------------------------------------------------

  /** 1 << i */
  function Mask(i: nat): nat { if i == 0 then 1 else 2 * Mask(i - 1) }

  /** x & (1 << i) is not 0. */
  predicate Bit(x: nat, i: nat) { if i == 0 then x % 2 == 1 else Bit(x / 2, i - 1) }

  predicate BitAt(blk: Block, bi: nat)
    requires bi < BPB
  {
    Bit(blk[bi / 8], bi % 8)
  }

  lemma {:induction false} AddMask(x: nat, i: nat, j: nat)
    requires !Bit(x, i)
    ensures Bit(x + Mask(i), j) <==> j == i || Bit(x, j)
  {
    if i > 0 {
      assert (x + Mask(i)) / 2 == x / 2 + Mask(i - 1);
      if j > 0 { AddMask(x / 2, i - 1, j - 1); }
    }
  }

  lemma {:induction false} SubMask(x: nat, i: nat, j: nat)
    requires Bit(x, i)
    ensures Mask(i) <= x
    ensures Bit(x - Mask(i), j) <==> j != i && Bit(x, j)
  {
    if i > 0 {
      SubMask(x / 2, i - 1, if j > 0 then j - 1 else 0);
      assert (x - Mask(i)) / 2 == x / 2 - Mask(i - 1);
    }
  }

  /** Setting a clear bit below 2^n stays below 2^n. */
  lemma {:induction false} AddBound(x: nat, i: nat, n: nat)
    requires !Bit(x, i) && i < n && x < Mask(n)
    ensures x + Mask(i) < Mask(n)
  {
    var h, m := x / 2, Mask(n - 1);
    assert Mask(n) == 2 * m && h < m;
    if i > 0 {
      AddBound(h, i - 1, n - 1);
      var k := Mask(i - 1);
      assert Mask(i) == 2 * k && x <= 2 * h + 1;
    }
  }

  lemma Mask8()
    ensures Mask(8) == 256
  {
  }

  function SetBit(blk: Block, bi: nat): Block
    requires bi < BPB && !BitAt(blk, bi)
  {
    Mask8();
    AddBound(blk[bi / 8], bi % 8, 8);
    blk[bi / 8 := blk[bi / 8] + Mask(bi % 8)]
  }

  function ClearBit(blk: Block, bi: nat): Block
    requires bi < BPB && BitAt(blk, bi)
  {
    SubMask(blk[bi / 8], bi % 8, 0);
    blk[bi / 8 := blk[bi / 8] - Mask(bi % 8)]
  }

  lemma SetBitAt(blk: Block, bi: nat, bj: nat)
    requires bi < BPB && bj < BPB && !BitAt(blk, bi)
    ensures BitAt(SetBit(blk, bi), bj) <==> bj == bi || BitAt(blk, bj)
  {
    if bi / 8 == bj / 8 { AddMask(blk[bi / 8], bi % 8, bj % 8); }
  }

  lemma ClearBitAt(blk: Block, bi: nat, bj: nat)
    requires bi < BPB && bj < BPB && BitAt(blk, bi)
    ensures BitAt(ClearBit(blk, bi), bj) <==> bj != bi && BitAt(blk, bj)
  {
    if bi / 8 == bj / 8 { SubMask(blk[bi / 8], bi % 8, bj % 8); }
  }

  /** The bitmap says that block b is in use. */
  predicate Used(g: Geo, d: Disk, b: nat)
    requires ValidGeo(g) && |d| == g.size && b < g.size
  {
    BitAt(d[BBLOCK(g, b)], b % BPB)
  }

  /** balloc of block b: its bit is set and it is zeroed. */
  function AllocBlock(g: Geo, d: Disk, b: nat): (d': Disk)
    requires ValidGeo(g) && |d| == g.size && b < g.size && !Used(g, d, b)
    ensures |d'| == |d|
  {
    d[BBLOCK(g, b) := SetBit(d[BBLOCK(g, b)], b % BPB)][b := ZeroBlock()]
  }

  /** bfree of block b. */
  function FreeBlock(g: Geo, d: Disk, b: nat): (d': Disk)
    requires ValidGeo(g) && |d| == g.size && b < g.size && Used(g, d, b)
    ensures |d'| == |d|
  {
    d[BBLOCK(g, b) := ClearBit(d[BBLOCK(g, b)], b % BPB)]
  }

  lemma SameBitmap(g: Geo, d: Disk, b: nat, x: Block, b2: nat)
    requires ValidGeo(g) && |d| == g.size && g.nmeta <= b < g.size && b2 < g.size
    ensures Used(g, d[b := x], b2) == Used(g, d, b2)
  {
  }

  lemma BitmapBelow(g: Geo, b: nat)
    requires ValidGeo(g) && b < g.size
    ensures g.bmapstart <= BBLOCK(g, b) < g.nmeta
  {
  }

  lemma AllocUsed(g: Geo, d: Disk, b: nat, b2: nat)
    requires ValidGeo(g) && |d| == g.size && g.nmeta <= b < g.size && !Used(g, d, b) && b2 < g.size
    ensures Used(g, AllocBlock(g, d, b), b2) <==> b2 == b || Used(g, d, b2)
  {
    BitmapBelow(g, b);
    BitmapBelow(g, b2);
    if b / BPB == b2 / BPB { SetBitAt(d[BBLOCK(g, b)], b % BPB, b2 % BPB); }
  }

  lemma FreeUsed(g: Geo, d: Disk, b: nat, b2: nat)
    requires ValidGeo(g) && |d| == g.size && g.nmeta <= b < g.size && Used(g, d, b) && b2 < g.size
    ensures Used(g, FreeBlock(g, d, b), b2) <==> b2 != b && Used(g, d, b2)
  {
    BitmapBelow(g, b);
    BitmapBelow(g, b2);
    if b / BPB == b2 / BPB { ClearBitAt(d[BBLOCK(g, b)], b % BPB, b2 % BPB); }
  }

  // ---- free blocks -------------------------------------------------------------------------

  /** The blocks whose bits are clear. */
  ghost function Spare(g: Geo, d: Disk): set<nat> {
    set b: nat | b < g.size && ValidGeo(g) && |d| == g.size && !Used(g, d, b)
  }

  ghost function FreeCount(g: Geo, d: Disk): nat { |Spare(g, d)| }

  lemma NoneFree(g: Geo, d: Disk)
    requires ValidGeo(g) && |d| == g.size
    ensures FreeCount(g, d) == 0 <==> forall b: nat :: b < g.size ==> Used(g, d, b)
  {
    hide Used;
    assert forall b: nat :: b < g.size ==> (b in Spare(g, d) <==> !Used(g, d, b));
    assert Spare(g, d) == {} <==> forall b :: b !in Spare(g, d);
  }

  lemma AllocFree(g: Geo, d: Disk, b: nat)
    requires ValidGeo(g) && |d| == g.size && g.nmeta <= b < g.size && !Used(g, d, b)
    ensures FreeCount(g, AllocBlock(g, d, b)) == FreeCount(g, d) - 1
  {
    hide Used;
    var d' := AllocBlock(g, d, b);
    hide AllocBlock;
    forall b2: nat | b2 < g.size ensures Used(g, d', b2) <==> b2 == b || Used(g, d, b2) { AllocUsed(g, d, b, b2); }
    assert Spare(g, d') == Spare(g, d) - {b};
  }

  /** What a data block holds is nothing to the bitmap. */
  lemma DataFree(g: Geo, d: Disk, b: nat, x: Block)
    requires ValidGeo(g) && |d| == g.size && g.nmeta <= b < g.size
    ensures FreeCount(g, d[b := x]) == FreeCount(g, d)
  {
    hide Used;
    forall b2: nat | b2 < g.size ensures Used(g, d[b := x], b2) == Used(g, d, b2) { SameBitmap(g, d, b, x, b2); }
    assert Spare(g, d[b := x]) == Spare(g, d);
  }

  // ---- addresses ---------------------------------------------------------------------------

  /** A place that can hold a block number: a pointer in an inode (the last one is the
      indirect block) or an entry of an inode's indirect block. */
  datatype Slot = Ptr(inum: nat, i: nat) | Entry(inum: nat, j: nat)

  predicate ValidSlot(count: nat, s: Slot) {
    s.inum < count && (if s.Ptr? then s.i <= NDIRECT else s.j < NINDIRECT)
  }

  /** The block number of the bn-th block of a file; 0 when there is none. */
  function BlockOf(d: Disk, ino: Inode, bn: nat): nat
    requires bn < MAXFILE
  {
    if bn < NDIRECT then ino.addrs[bn] else
      var ib := ino.addrs[NDIRECT];
      if ib == 0 || ib >= |d| then 0 else WordAt(d[ib], bn - NDIRECT)
  }

  function AddrOf(d: Disk, mem: seq<Inode>, s: Slot): nat
    requires ValidSlot(|mem|, s)
  {
    match s
    case Ptr(n, i) => mem[n].addrs[i]
    case Entry(n, j) => BlockOf(d, mem[n], NDIRECT + j)
  }

  function SlotOf(inum: nat, bn: nat): Slot {
    if bn < NDIRECT then Ptr(inum, bn) else Entry(inum, bn - NDIRECT)
  }

  /** Every block the bitmap has in use is metadata or owned by exactly one slot, and what a
      slot names it owns. Slots in dead are being freed and do not count. */
  ghost predicate Own(g: Geo, d: Disk, mem: seq<Inode>, owner: map<nat, Slot>, dead: set<Slot>) {
    && ValidGeo(g) && |d| == g.size
    && (forall b :: b in owner ==>
          g.nmeta <= b < g.size && ValidSlot(|mem|, owner[b]) && AddrOf(d, mem, owner[b]) == b)
    && (forall s :: ValidSlot(|mem|, s) && s !in dead && AddrOf(d, mem, s) != 0 ==>
          AddrOf(d, mem, s) in owner && owner[AddrOf(d, mem, s)] == s)
    && (forall b: nat :: b < g.size ==> (Used(g, d, b) <==> b < g.nmeta || b in owner))
  }

  /** In the bitmap's own terms: a data block is in use if and only if some slot of some inode
      names it, and then only one does. */
  lemma ExactlyOneSlot(g: Geo, d: Disk, mem: seq<Inode>, owner: map<nat, Slot>, b: nat)
    requires Own(g, d, mem, owner, {}) && g.nmeta <= b < g.size
    ensures Used(g, d, b) <==> exists s :: Names(d, mem, s, b)
    ensures forall s, t :: Names(d, mem, s, b) && Names(d, mem, t, b) ==> s == t
  {
    hide AddrOf, Used;
    if Used(g, d, b) { assert Names(d, mem, owner[b], b); }
  }

  /** Slot s holds the number of block b. */
  ghost predicate Names(d: Disk, mem: seq<Inode>, s: Slot, b: nat) { ValidSlot(|mem|, s) && AddrOf(d, mem, s) == b }

  /** The block holds file data, as opposed to block numbers. */
  predicate IsData(s: Slot) { s.Entry? || s.i < NDIRECT }

  lemma AllocPtr(g: Geo, d: Disk, mem: seq<Inode>, owner: map<nat, Slot>, b: nat, n: nat, i: nat)
    requires Own(g, d, mem, owner, {}) && b < g.size && !Used(g, d, b)
    requires n < |mem| && i <= NDIRECT && mem[n].addrs[i] == 0
    ensures b >= g.nmeta && b !in owner
    ensures Own(g, AllocBlock(g, d, b), mem[n := mem[n].(addrs := mem[n].addrs[i := b])],
                owner[b := Ptr(n, i)], {})
    ensures Keeps(d, mem, AllocBlock(g, d, b), mem[n := mem[n].(addrs := mem[n].addrs[i := b])])
  {
    hide Keeps, BlockOf, Used, AddrOf;
    var d', mem' := AllocBlock(g, d, b), mem[n := mem[n].(addrs := mem[n].addrs[i := b])];
    forall s | ValidSlot(|mem|, s)
      ensures AddrOf(d', mem', s) == if s == Ptr(n, i) then b else AddrOf(d, mem, s)
    {
      AllocAddr(g, d, mem, owner, b, n, i, s);
    }
    forall b2: nat | b2 < g.size ensures Used(g, d', b2) <==> b2 == b || Used(g, d, b2) {
      AllocUsed(g, d, b, b2);
    }
    assert AddrOf(d, mem, Ptr(n, i)) == 0 by { PtrAddr(d, mem, n, i); }
    OwnGrows(g, d, mem, owner, b, Ptr(n, i), d', mem');
    AllocKeeps(g, d, mem, owner, b, mem');
  }

  lemma PtrAddr(d: Disk, mem: seq<Inode>, n: nat, i: nat)
    requires n < |mem| && i <= NDIRECT
    ensures AddrOf(d, mem, Ptr(n, i)) == mem[n].addrs[i]
  {
  }

  /** One slot that named nothing now names a block that nothing owned. */
  lemma OwnGrows(g: Geo, d: Disk, mem: seq<Inode>, owner: map<nat, Slot>, b: nat, slot: Slot,
                 d': Disk, mem': seq<Inode>)
    requires Own(g, d, mem, owner, {}) && b < g.size && !Used(g, d, b)
    requires ValidSlot(|mem|, slot) && AddrOf(d, mem, slot) == 0 && |mem'| == |mem| && |d'| == |d|
    requires forall s :: ValidSlot(|mem|, s) ==> AddrOf(d', mem', s) == if s == slot then b else AddrOf(d, mem, s)
    requires forall b2: nat :: b2 < g.size ==> (Used(g, d', b2) <==> b2 == b || Used(g, d, b2))
    ensures b >= g.nmeta && b !in owner && Own(g, d', mem', owner[b := slot], {})
  {
    hide AddrOf;
    assert b !in owner && b >= g.nmeta;
    hide Used;
    OwnersGrow(g, d, mem, owner, b, slot, d', mem');
    SlotsGrow(g, d, mem, owner, b, slot, d', mem');
    var o := owner[b := slot];
    assert forall b2: nat :: b2 < g.size ==> (Used(g, d', b2) <==> b2 < g.nmeta || b2 in o) by {
      assert forall b2: nat :: b2 < g.size ==> (Used(g, d, b2) <==> b2 < g.nmeta || b2 in owner);
    }
    hide Own;
    OwnFrom(g, d', mem', o) by { assert ValidGeo(g) && |d'| == g.size by { OwnShape(g, d, mem, owner); } }
  }

  lemma OwnShape(g: Geo, d: Disk, mem: seq<Inode>, owner: map<nat, Slot>)
    requires Own(g, d, mem, owner, {})
    ensures ValidGeo(g) && |d| == g.size
  {
  }

  /** What each owned block's slot says, and what each slot's block is owned by. */
  ghost predicate Owners(g: Geo, d: Disk, mem: seq<Inode>, owner: map<nat, Slot>) {
    forall b :: b in owner ==> g.nmeta <= b < g.size && ValidSlot(|mem|, owner[b]) && AddrOf(d, mem, owner[b]) == b
  }

  ghost predicate Slots(d: Disk, mem: seq<Inode>, owner: map<nat, Slot>) {
    forall s :: ValidSlot(|mem|, s) && AddrOf(d, mem, s) != 0 ==>
      AddrOf(d, mem, s) in owner && owner[AddrOf(d, mem, s)] == s
  }

  lemma OwnFrom(g: Geo, d: Disk, mem: seq<Inode>, owner: map<nat, Slot>)
    requires ValidGeo(g) && |d| == g.size && Owners(g, d, mem, owner) && Slots(d, mem, owner)
    requires forall b: nat :: b < g.size ==> (Used(g, d, b) <==> b < g.nmeta || b in owner)
    ensures Own(g, d, mem, owner, {})
  {
  }

  lemma OwnersGrow(g: Geo, d: Disk, mem: seq<Inode>, owner: map<nat, Slot>, b: nat, slot: Slot, d': Disk,
                   mem': seq<Inode>)
    requires Own(g, d, mem, owner, {}) && g.nmeta <= b < g.size && b !in owner
    requires ValidSlot(|mem|, slot) && AddrOf(d, mem, slot) == 0 && |mem'| == |mem|
    requires forall s :: ValidSlot(|mem|, s) ==> AddrOf(d', mem', s) == if s == slot then b else AddrOf(d, mem, s)
    ensures Owners(g, d', mem', owner[b := slot])
  {
    hide AddrOf, Used, Own, ValidSlot;
    var o := owner[b := slot];
    forall a | a in o
      ensures g.nmeta <= a < g.size && ValidSlot(|mem'|, o[a]) && AddrOf(d', mem', o[a]) == a
    {
      if a != b { OwnerAt(g, d, mem, owner, a); }
    }
  }

  lemma OwnerAt(g: Geo, d: Disk, mem: seq<Inode>, owner: map<nat, Slot>, a: nat)
    requires Own(g, d, mem, owner, {}) && a in owner
    ensures 0 < g.nmeta <= a < g.size && ValidSlot(|mem|, owner[a]) && AddrOf(d, mem, owner[a]) == a
  {
    hide Used, AddrOf;
  }

  lemma SlotsGrow(g: Geo, d: Disk, mem: seq<Inode>, owner: map<nat, Slot>, b: nat, slot: Slot, d': Disk,
                  mem': seq<Inode>)
    requires Own(g, d, mem, owner, {}) && b !in owner
    requires ValidSlot(|mem|, slot) && AddrOf(d, mem, slot) == 0 && |mem'| == |mem|
    requires forall s :: ValidSlot(|mem|, s) ==> AddrOf(d', mem', s) == if s == slot then b else AddrOf(d, mem, s)
    ensures Slots(d', mem', owner[b := slot])
  {
    hide AddrOf, Used;
  }

  /** One slot no longer names its block, which is free. */
  lemma OwnShrinks(g: Geo, d: Disk, mem: seq<Inode>, owner: map<nat, Slot>, b: nat,
                   d': Disk, mem': seq<Inode>)
    requires Own(g, d, mem, owner, {}) && b in owner && |mem'| == |mem| && |d'| == |d|
    requires forall s :: ValidSlot(|mem|, s) ==> AddrOf(d', mem', s) == if s == owner[b] then 0 else AddrOf(d, mem, s)
    requires forall b2: nat :: b2 < g.size ==> (Used(g, d', b2) <==> b2 != b && Used(g, d, b2))
    ensures Own(g, d', mem', owner - {b}, {})
  {
  }

  lemma AllocAddr(g: Geo, d: Disk, mem: seq<Inode>, owner: map<nat, Slot>, b: nat, n: nat, i: nat, s: Slot)
    requires Own(g, d, mem, owner, {}) && b < g.size && !Used(g, d, b)
    requires n < |mem| && i <= NDIRECT && mem[n].addrs[i] == 0 && ValidSlot(|mem|, s)
    ensures var d', mem' := AllocBlock(g, d, b), mem[n := mem[n].(addrs := mem[n].addrs[i := b])];
      AddrOf(d', mem', s) == if s == Ptr(n, i) then b else AddrOf(d, mem, s)
  {
    BitmapBelow(g, b);
    if s.Entry? {
      assert mem[s.inum].addrs[NDIRECT] == AddrOf(d, mem, Ptr(s.inum, NDIRECT));
      ZeroWord(s.j);
    }
  }

  /** What is mapped stays mapped to the same block with the same contents. */
  ghost predicate Keeps(d: Disk, mem: seq<Inode>, d': Disk, mem': seq<Inode>) {
    && |d'| == |d| && |mem'| == |mem|
    && forall n, bn :: 0 <= n < |mem| && 0 <= bn < MAXFILE && BlockOf(d, mem[n], bn) != 0 ==>
         && BlockOf(d', mem'[n], bn) == BlockOf(d, mem[n], bn)
         && (BlockOf(d, mem[n], bn) < |d| ==> d'[BlockOf(d, mem[n], bn)] == d[BlockOf(d, mem[n], bn)])
  }

  lemma DataOwned(g: Geo, d: Disk, mem: seq<Inode>, owner: map<nat, Slot>, n: nat, bn: nat)
    requires Own(g, d, mem, owner, {}) && n < |mem| && bn < MAXFILE && BlockOf(d, mem[n], bn) != 0
    ensures var a := BlockOf(d, mem[n], bn);
      g.nmeta <= a < g.size && a in owner && owner[a] == SlotOf(n, bn) && IsData(owner[a])
  {
    assert AddrOf(d, mem, SlotOf(n, bn)) == BlockOf(d, mem[n], bn);
  }

  lemma AllocKeeps(g: Geo, d: Disk, mem: seq<Inode>, owner: map<nat, Slot>, b: nat, mem': seq<Inode>)
    requires Own(g, d, mem, owner, {}) && b < g.size && !Used(g, d, b) && |mem'| == |mem|
    requires forall s :: ValidSlot(|mem|, s) && AddrOf(d, mem, s) != 0 ==>
      AddrOf(AllocBlock(g, d, b), mem', s) == AddrOf(d, mem, s)
    ensures Keeps(d, mem, AllocBlock(g, d, b), mem')
  {
    var d' := AllocBlock(g, d, b);
    BitmapBelow(g, b);
    forall n, bn | 0 <= n < |mem| && 0 <= bn < MAXFILE && BlockOf(d, mem[n], bn) != 0
      ensures BlockOf(d', mem'[n], bn) == BlockOf(d, mem[n], bn) < |d|
      ensures d'[BlockOf(d, mem[n], bn)] == d[BlockOf(d, mem[n], bn)]
    {
      DataOwned(g, d, mem, owner, n, bn);
      assert AddrOf(d', mem', SlotOf(n, bn)) == AddrOf(d, mem, SlotOf(n, bn));
    }
  }

  /** A new block named by entry j of the indirect block of inode n. */
  lemma AllocEntry(g: Geo, d: Disk, mem: seq<Inode>, owner: map<nat, Slot>, b: nat, n: nat, j: nat)
    requires Own(g, d, mem, owner, {}) && b < g.size && !Used(g, d, b)
    requires n < |mem| && j < NINDIRECT && mem[n].addrs[NDIRECT] != 0
    requires BlockOf(d, mem[n], NDIRECT + j) == 0
    ensures b >= g.nmeta && b !in owner && g.nmeta <= mem[n].addrs[NDIRECT] < g.size && mem[n].addrs[NDIRECT] != b
    ensures var ib := mem[n].addrs[NDIRECT];
      var d' := AllocBlock(g, d, b)[ib := SetWord(AllocBlock(g, d, b)[ib], j, b)];
      Own(g, d', mem, owner[b := Entry(n, j)], {}) && Keeps(d, mem, d', mem)
      && BlockOf(d', mem[n], NDIRECT + j) == b
  {
    var ib := mem[n].addrs[NDIRECT];
    assert ib == AddrOf(d, mem, Ptr(n, NDIRECT));
    BitmapBelow(g, b);
    var d1 := AllocBlock(g, d, b);
    var d' := d1[ib := SetWord(d1[ib], j, b)];
    assert d1[ib] == d[ib];
    forall s | ValidSlot(|mem|, s)
      ensures AddrOf(d', mem, s) == if s == Entry(n, j) then b else AddrOf(d, mem, s)
    {
      EntryAddr(g, d, mem, owner, b, n, j, s);
    }
    forall b2: nat | b2 < g.size ensures Used(g, d', b2) <==> b2 == b || Used(g, d, b2) {
      AllocUsed(g, d, b, b2);
      SameBitmap(g, d1, ib, SetWord(d1[ib], j, b), b2);
    }
    OwnGrows(g, d, mem, owner, b, Entry(n, j), d', mem);
    EntryKeeps(g, d, mem, owner, b, n, j);
  }

  lemma EntryAddr(g: Geo, d: Disk, mem: seq<Inode>, owner: map<nat, Slot>, b: nat, n: nat, j: nat, s: Slot)
    requires Own(g, d, mem, owner, {}) && b < g.size && !Used(g, d, b)
    requires n < |mem| && j < NINDIRECT && mem[n].addrs[NDIRECT] != 0 && ValidSlot(|mem|, s)
    requires mem[n].addrs[NDIRECT] < g.size && AllocBlock(g, d, b)[mem[n].addrs[NDIRECT]] == d[mem[n].addrs[NDIRECT]]
    ensures var ib := mem[n].addrs[NDIRECT];
      var d' := AllocBlock(g, d, b)[ib := SetWord(d[ib], j, b)];
      AddrOf(d', mem, s) == if s == Entry(n, j) then b else AddrOf(d, mem, s)
  {
    BitmapBelow(g, b);
    var ib := mem[n].addrs[NDIRECT];
    assert ib == AddrOf(d, mem, Ptr(n, NDIRECT));
    if s.Entry? {
      assert mem[s.inum].addrs[NDIRECT] == AddrOf(d, mem, Ptr(s.inum, NDIRECT));
      SetWordAt(d[ib], j, b, s.j);
    }
  }

  lemma EntryKeeps(g: Geo, d: Disk, mem: seq<Inode>, owner: map<nat, Slot>, b: nat, n: nat, j: nat)
    requires Own(g, d, mem, owner, {}) && b < g.size && !Used(g, d, b)
    requires n < |mem| && j < NINDIRECT && mem[n].addrs[NDIRECT] != 0
    requires mem[n].addrs[NDIRECT] < g.size && AllocBlock(g, d, b)[mem[n].addrs[NDIRECT]] == d[mem[n].addrs[NDIRECT]]
    requires BlockOf(d, mem[n], NDIRECT + j) == 0
    ensures var ib := mem[n].addrs[NDIRECT];
      Keeps(d, mem, AllocBlock(g, d, b)[ib := SetWord(d[ib], j, b)], mem)
  {
    hide BlockOf, AddrOf, Used, SetWord, Own, AllocBlock;
    OwnShape(g, d, mem, owner);
    var ib := mem[n].addrs[NDIRECT];
    var d' := AllocBlock(g, d, b)[ib := SetWord(d[ib], j, b)];
    forall m, bn | 0 <= m < |mem| && 0 <= bn < MAXFILE && BlockOf(d, mem[m], bn) != 0
      ensures BlockOf(d', mem[m], bn) == BlockOf(d, mem[m], bn) < |d|
      ensures d'[BlockOf(d, mem[m], bn)] == d[BlockOf(d, mem[m], bn)]
    {
      EntryKeepsAt(g, d, mem, owner, b, n, j, m, bn);
    }
  }

  lemma EntryKeepsAt(g: Geo, d: Disk, mem: seq<Inode>, owner: map<nat, Slot>, b: nat, n: nat, j: nat, m: nat, bn: nat)
    requires Own(g, d, mem, owner, {}) && b < g.size && !Used(g, d, b)
    requires n < |mem| && j < NINDIRECT && mem[n].addrs[NDIRECT] != 0
    requires mem[n].addrs[NDIRECT] < g.size && AllocBlock(g, d, b)[mem[n].addrs[NDIRECT]] == d[mem[n].addrs[NDIRECT]]
    requires BlockOf(d, mem[n], NDIRECT + j) == 0
    requires m < |mem| && bn < MAXFILE && BlockOf(d, mem[m], bn) != 0
    ensures var d' := AllocBlock(g, d, b)[mem[n].addrs[NDIRECT] := SetWord(d[mem[n].addrs[NDIRECT]], j, b)];
      && BlockOf(d', mem[m], bn) == BlockOf(d, mem[m], bn) < |d|
      && d'[BlockOf(d, mem[m], bn)] == d[BlockOf(d, mem[m], bn)]
  {
    hide BlockOf, AddrOf, Used, SetWord;
    var d' := AllocBlock(g, d, b)[mem[n].addrs[NDIRECT] := SetWord(d[mem[n].addrs[NDIRECT]], j, b)];
    SlotAddr(d, mem, m, bn);
    SlotAddr(d', mem, m, bn);
    SlotAddr(d, mem, n, NDIRECT + j);
    PtrAddr(d, mem, n, NDIRECT);
    EntryAddr(g, d, mem, owner, b, n, j, SlotOf(m, bn));
    assert owner[mem[n].addrs[NDIRECT]] == Ptr(n, NDIRECT);
    BitmapBelow(g, b);
  }

  lemma SlotAddr(d: Disk, mem: seq<Inode>, n: nat, bn: nat)
    requires n < |mem| && bn < MAXFILE
    ensures ValidSlot(|mem|, SlotOf(n, bn)) && AddrOf(d, mem, SlotOf(n, bn)) == BlockOf(d, mem[n], bn)
    ensures SlotOf(n, bn) != Ptr(n, NDIRECT)
  {
  }

  /** New contents for a data block move no address. */
  lemma WriteData(g: Geo, d: Disk, mem: seq<Inode>, owner: map<nat, Slot>, a: nat, x: Block)
    requires Own(g, d, mem, owner, {}) && a in owner && IsData(owner[a])
    ensures Own(g, d[a := x], mem, owner, {})
  {
    var d' := d[a := x];
    forall s | ValidSlot(|mem|, s) ensures AddrOf(d', mem, s) == AddrOf(d, mem, s) {
      if s.Entry? { assert mem[s.inum].addrs[NDIRECT] == AddrOf(d, mem, Ptr(s.inum, NDIRECT)); }
    }
    forall b: nat | b < g.size ensures Used(g, d', b) == Used(g, d, b) {
      SameBitmap(g, d, a, x, b);
    }
  }

  // ---- freeing -------------------------------------------------------------------------------

  lemma FreeDisk(g: Geo, d: Disk, b: nat)
    requires ValidGeo(g) && |d| == g.size && g.nmeta <= b < g.size && Used(g, d, b)
    ensures forall a: nat :: g.nmeta <= a < g.size ==> FreeBlock(g, d, b)[a] == d[a]
    ensures forall b2: nat :: b2 < g.size ==> (Used(g, FreeBlock(g, d, b), b2) <==> b2 != b && Used(g, d, b2))
  {
    BitmapBelow(g, b);
    forall b2: nat | b2 < g.size ensures Used(g, FreeBlock(g, d, b), b2) <==> b2 != b && Used(g, d, b2) {
      FreeUsed(g, d, b, b2);
    }
  }

  /** A direct pointer is freed and cleared. */
  lemma FreeDirect(g: Geo, d: Disk, mem: seq<Inode>, owner: map<nat, Slot>, n: nat, i: nat)
    requires Own(g, d, mem, owner, {}) && n < |mem| && i < NDIRECT && mem[n].addrs[i] != 0
    ensures var b := mem[n].addrs[i];
      && g.nmeta <= b < g.size && Used(g, d, b)
      && Own(g, FreeBlock(g, d, b), mem[n := mem[n].(addrs := mem[n].addrs[i := 0])], owner - {b}, {})
  {
    var b, mem' := mem[n].addrs[i], mem[n := mem[n].(addrs := mem[n].addrs[i := 0])];
    assert b == AddrOf(d, mem, Ptr(n, i));
    FreeDisk(g, d, b);
    var d' := FreeBlock(g, d, b);
    forall s | ValidSlot(|mem|, s)
      ensures AddrOf(d', mem', s) == if s == Ptr(n, i) then 0 else AddrOf(d, mem, s)
    {
      if s.Entry? { assert mem[s.inum].addrs[NDIRECT] == AddrOf(d, mem, Ptr(s.inum, NDIRECT)); }
    }
    OwnShrinks(g, d, mem, owner, b, d', mem');
  }

  /** An entry is freed, but stays in the indirect block, which will be freed too. */
  lemma FreeEntry(g: Geo, d: Disk, mem: seq<Inode>, owner: map<nat, Slot>, dead: set<Slot>, n: nat, j: nat)
    requires Own(g, d, mem, owner, dead) && n < |mem| && j < NINDIRECT
    requires forall s :: s in dead ==> s.Entry?
    requires BlockOf(d, mem[n], NDIRECT + j) != 0 && Entry(n, j) !in dead
    ensures var b := BlockOf(d, mem[n], NDIRECT + j);
      && g.nmeta <= b < g.size && Used(g, d, b)
      && Own(g, FreeBlock(g, d, b), mem, owner - {b}, dead + {Entry(n, j)})
  {
    var b := BlockOf(d, mem[n], NDIRECT + j);
    assert b == AddrOf(d, mem, Entry(n, j));
    FreeDisk(g, d, b);
    var d' := FreeBlock(g, d, b);
    forall s | ValidSlot(|mem|, s) ensures AddrOf(d', mem, s) == AddrOf(d, mem, s) {
      if s.Entry? { assert mem[s.inum].addrs[NDIRECT] == AddrOf(d, mem, Ptr(s.inum, NDIRECT)); }
    }
  }

  /** The entries of inode n before k that name a block. */
  ghost function DeadEntries(n: nat, k: nat): set<Slot> {
    set j | 0 <= j < k :: Entry(n, j)
  }

  /** The indirect block is freed when all its entries are dead. */
  lemma FreeIndirect(g: Geo, d: Disk, mem: seq<Inode>, owner: map<nat, Slot>, n: nat)
    requires Own(g, d, mem, owner, DeadEntries(n, NINDIRECT)) && n < |mem| && mem[n].addrs[NDIRECT] != 0
    requires forall b :: b in owner ==> !(owner[b].Entry? && owner[b].inum == n)
    ensures var b := mem[n].addrs[NDIRECT];
      && g.nmeta <= b < g.size && Used(g, d, b)
      && Own(g, FreeBlock(g, d, b), mem[n := mem[n].(addrs := mem[n].addrs[NDIRECT := 0])], owner - {b}, {})
  {
    var b, mem' := mem[n].addrs[NDIRECT], mem[n := mem[n].(addrs := mem[n].addrs[NDIRECT := 0])];
    assert b == AddrOf(d, mem, Ptr(n, NDIRECT));
    FreeDisk(g, d, b);
    var d' := FreeBlock(g, d, b);
    forall s | ValidSlot(|mem|, s)
      ensures AddrOf(d', mem', s) ==
        if s == Ptr(n, NDIRECT) || (s.Entry? && s.inum == n) then 0 else AddrOf(d, mem, s)
    {
      if s.Entry? && s.inum != n {
        assert mem[s.inum].addrs[NDIRECT] == AddrOf(d, mem, Ptr(s.inum, NDIRECT));
      }
    }
    assert forall s :: ValidSlot(|mem|, s) && s in DeadEntries(n, NINDIRECT) ==> s.Entry? && s.inum == n;
  }

  // ---- files -----------------------------------------------------------------------------------

  function ByteAt(d: Disk, ino: Inode, p: nat): Byte
    requires p < MAXFILE * BSIZE
  {
    var a := BlockOf(d, ino, p / BSIZE);
    if a < |d| then d[a][p % BSIZE] else 0
  }

  /** All blocks below byte len are there. */
  ghost predicate Covered(d: Disk, ino: Inode, len: nat) {
    len <= MAXFILE * BSIZE && forall bn: nat :: bn * BSIZE < len ==> BlockOf(d, ino, bn) != 0
  }

  /** A file without holes is the sequence of its bytes. */
  function Content(d: Disk, ino: Inode): seq<Byte>
    requires ino.size <= MAXFILE * BSIZE
  {
    seq(ino.size, p requires 0 <= p < ino.size => ByteAt(d, ino, p))
  }

  ghost predicate NoHoles(d: Disk, mem: seq<Inode>) {
    forall n :: 0 <= n < |mem| ==> Covered(d, mem[n], mem[n].size)
  }

  lemma KeepsBytes(d: Disk, mem: seq<Inode>, d': Disk, mem': seq<Inode>, n: nat, len: nat)
    requires Keeps(d, mem, d', mem') && n < |mem| && Covered(d, mem[n], len)
    ensures Covered(d', mem'[n], len)
    ensures forall p: nat :: p < len ==> ByteAt(d', mem'[n], p) == ByteAt(d, mem[n], p)
  {
  }

  /** Nothing is allocated past the end of a file. */
  ghost predicate Tight(d: Disk, ino: Inode, size: nat) {
    forall bn: nat :: bn < MAXFILE && size <= bn * BSIZE ==> BlockOf(d, ino, bn) == 0
  }

  ghost predicate AllTight(d: Disk, mem: seq<Inode>) {
    forall n :: 0 <= n < |mem| ==> Tight(d, mem[n], mem[n].size)
  }

  /** The slot is needed for bytes of its file below hi. */
  predicate Below(s: Slot, hi: nat) {
    (if s.Ptr? then s.i else NDIRECT + s.j) * BSIZE < hi
  }

  /** The slots that have been given blocks are those of inode n for bytes below hi. */
  ghost predicate OwnsMore(o: map<nat, Slot>, o': map<nat, Slot>, n: nat, hi: nat) {
    forall a :: a in o' && !(a in o && o[a] == o'[a]) ==> o'[a].inum == n && Below(o'[a], hi)
  }

  lemma OwnsSame(o: map<nat, Slot>, n: nat, hi: nat)
    ensures OwnsMore(o, o, n, hi)
  {
  }

  lemma OwnsOne(o: map<nat, Slot>, a: nat, s: Slot, hi: nat)
    requires Below(s, hi)
    ensures OwnsMore(o, o[a := s], s.inum, hi)
  {
  }

  lemma OwnsStep(o: map<nat, Slot>, o': map<nat, Slot>, a: nat, s: Slot, hi: nat)
    requires (o' == o || o' == o[a := s]) && Below(s, hi)
    ensures OwnsMore(o, o', s.inum, hi)
  {
  }

  lemma OwnsTwice(o: map<nat, Slot>, o1: map<nat, Slot>, o2: map<nat, Slot>, n: nat, hi1: nat, hi2: nat)
    requires OwnsMore(o, o1, n, hi1) && OwnsMore(o1, o2, n, hi2) && hi1 <= hi2
    ensures OwnsMore(o, o2, n, hi2)
  {
  }

  /** Only the slots that were given blocks name more than before. */
  lemma OwnsNoOther(g: Geo, d0: Disk, m0: seq<Inode>, o0: map<nat, Slot>, d: Disk, m: seq<Inode>, o: map<nat, Slot>,
                    n: nat, hi: nat, k: nat, bn: nat)
    requires Own(g, d0, m0, o0, {}) && Own(g, d, m, o, {}) && OwnsMore(o0, o, n, hi) && |m| == |m0|
    requires k < |m| && bn < MAXFILE && (k == n ==> hi <= bn * BSIZE)
    ensures BlockOf(d0, m0[k], bn) == 0 ==> BlockOf(d, m[k], bn) == 0
  {
    if BlockOf(d, m[k], bn) != 0 {
      DataOwned(g, d, m, o, k, bn);
      var a := BlockOf(d, m[k], bn);
      assert a in o0 && o0[a] == SlotOf(k, bn);
      hide BlockOf, Used;
      assert AddrOf(d0, m0, o0[a]) == a;
      assert AddrOf(d0, m0, SlotOf(k, bn)) == BlockOf(d0, m0[k], bn) by { hide Own; }
    }
  }

  /** A file that has been given blocks for bytes below hi has none past that, and an indirect
      block only if hi is past the direct ones. */
  lemma OwnsTo(g: Geo, d0: Disk, m0: seq<Inode>, o0: map<nat, Slot>, d: Disk, m: seq<Inode>, o: map<nat, Slot>,
               n: nat, hi: nat, size: nat)
    requires Own(g, d0, m0, o0, {}) && Own(g, d, m, o, {}) && OwnsMore(o0, o, n, hi) && |m| == |m0| && n < |m|
    requires Tight(d0, m0[n], size) && size <= hi
    ensures Tight(d, m[n], hi)
    ensures m[n].addrs[NDIRECT] != 0 && m0[n].addrs[NDIRECT] == 0 ==> NDIRECT * BSIZE < hi
  {
    hide BlockOf, Used;
    forall bn: nat | bn < MAXFILE && hi <= bn * BSIZE ensures BlockOf(d, m[n], bn) == 0 {
      assert BlockOf(d0, m0[n], bn) == 0;
      OwnsNoOther(g, d0, m0, o0, d, m, o, n, hi, n, bn);
    }
    var a := m[n].addrs[NDIRECT];
    if a != 0 && m0[n].addrs[NDIRECT] == 0 {
      assert AddrOf(d, m, Ptr(n, NDIRECT)) == a;
      assert a in o && o[a] == Ptr(n, NDIRECT);
      PtrOwned(g, d0, m0, o0, a, n);
    }
  }

  lemma PtrOwned(g: Geo, d: Disk, m: seq<Inode>, o: map<nat, Slot>, a: nat, n: nat)
    requires Own(g, d, m, o, {}) && n < |m| && m[n].addrs[NDIRECT] == 0 && a != 0
    ensures a in o ==> o[a] != Ptr(n, NDIRECT)
  {
    assert AddrOf(d, m, Ptr(n, NDIRECT)) == 0;
  }

  /** A file that is given blocks up to its new size stays tight, and so do all others. */
  lemma OwnsTight(g: Geo, d0: Disk, m0: seq<Inode>, o0: map<nat, Slot>, d: Disk, m1: seq<Inode>, o: map<nat, Slot>,
                  n: nat, hi: nat, m: seq<Inode>)
    requires Own(g, d0, m0, o0, {}) && Own(g, d, m1, o, {}) && OwnsMore(o0, o, n, hi) && AllTight(d0, m0)
    requires |m| == |m1| == |m0| && n < |m0| && m == m1[n := m1[n].(size := m[n].size)] && hi <= m[n].size
    requires m0[n].size <= m[n].size && forall k :: 0 <= k < |m| && k != n ==> m[k].size == m0[k].size
    ensures AllTight(d, m)
  {
    hide Own, OwnsMore, BlockOf;
    forall k | 0 <= k < |m| ensures Tight(d, m[k], m[k].size) {
      assert Tight(d0, m0[k], m0[k].size);
      forall bn: nat | bn < MAXFILE && m[k].size <= bn * BSIZE ensures BlockOf(d, m[k], bn) == 0 {
        AddrsIs(d, m1[k], m[k], bn);
        OwnsNoOther(g, d0, m0, o0, d, m1, o, n, hi, k, bn);
      }
    }
  }

  lemma DirectIs(d: Disk, ino: Inode, bn: nat)
    requires bn < NDIRECT
    ensures BlockOf(d, ino, bn) == ino.addrs[bn]
  {
  }

  lemma IndirectIs(d: Disk, ino: Inode, bn: nat)
    requires NDIRECT <= bn < MAXFILE && 0 < ino.addrs[NDIRECT] < |d|
    ensures BlockOf(d, ino, bn) == WordAt(d[ino.addrs[NDIRECT]], bn - NDIRECT)
  {
  }

  lemma AddrsIs(d: Disk, i1: Inode, i2: Inode, bn: nat)
    requires i2.addrs == i1.addrs && bn < MAXFILE
    ensures BlockOf(d, i2, bn) == BlockOf(d, i1, bn)
  {
  }
}
