/** mkfs: the first file system, built by appending to inodes with blocks taken in order, and
    what the inode layer needs of it. */
module Mkfs {
  import opened Blocks
  import opened Inodes
  import opened InodeLayer
  import opened FileIO

  const ROOTINO := 1

  /** The superblock of an image of this many blocks. */
  function Layout(fssize: nat, ninodes: nat, nlog: nat): Geo {
    var inodestart := 2 + nlog;
    var bmapstart := inodestart + ninodes / IPB + 1;
    Geo(fssize, inodestart, ninodes, bmapstart, bmapstart + fssize / BPB + 1)
  }

  /** The layout leaves room for every inode and for a bit of every block. */
  lemma LayoutValid(fssize: nat, ninodes: nat, nlog: nat)
    requires fssize < UINT
    ensures var g := Layout(fssize, ninodes, nlog); ValidGeo(g) <==> 0 < fssize && g.nmeta <= fssize
  {
  }

  // ---- the check on the space left -----------------------------------------------------------

  /** nblocks - used as an unsigned difference, tested against twice the largest file. */
  predicate MarginOk(nblocks: nat, used: nat) { (nblocks + UINT - used % UINT) % UINT >= 2 * MAXFILE }

  /** The test is exact as long as the difference does not wrap. */
  lemma MarginExact(nblocks: nat, used: nat)
    requires nblocks < UINT && used < UINT
    ensures MarginOk(nblocks, used) <==>
      if used <= nblocks then used + 2 * MAXFILE <= nblocks else used + 2 * MAXFILE <= nblocks + UINT
  {
  }

  lemma NoWrap(a: nat, b: nat)
    requires b <= a < UINT
    ensures (a + UINT - b) % UINT == a - b
  {
  }

  // ---- the image being built -----------------------------------------------------------------

  /** disk is full without its bitmap: the blocks below freeblock are taken, the rest are zero. */
  ghost predicate Filled(g: Geo, disk: Disk, full: Disk, freeblock: nat) {
    && ValidGeo(g) && |disk| == |full| == g.size && g.nmeta <= freeblock <= g.size
    && (forall b: nat :: b < g.size ==> (Used(g, full, b) <==> b < freeblock))
    && (forall b: nat :: b < g.size && !(g.bmapstart <= b < g.nmeta) ==> disk[b] == full[b])
    && (forall b: nat :: freeblock <= b < g.size ==> disk[b] == ZeroBlock())
    && (forall b: nat :: g.bmapstart <= b < g.nmeta ==> disk[b] == ZeroBlock())
  }

  lemma FilledMore(g: Geo, disk: Disk, full: Disk, freeblock: nat)
    requires Filled(g, disk, full, freeblock) && freeblock < g.size
    ensures !Used(g, full, freeblock) && Filled(g, disk, AllocBlock(g, full, freeblock), freeblock + 1)
  {
    hide Used, ZeroBlock;
    var f := AllocBlock(g, full, freeblock);
    BitmapBelow(g, freeblock);
    forall b: nat | b < g.size ensures Used(g, f, b) <==> b < freeblock + 1 { AllocUsed(g, full, freeblock, b); }
  }

  /** A block that is taken may be written. */
  lemma FilledWrite(g: Geo, disk: Disk, full: Disk, freeblock: nat, a: nat, x: Block)
    requires Filled(g, disk, full, freeblock) && g.nmeta <= a < freeblock
    ensures disk[a] == full[a] && Filled(g, disk[a := x], full[a := x], freeblock)
  {
    hide Used, ZeroBlock;
    var f := full[a := x];
    assert disk[a] == full[a];
    forall b: nat | b < g.size ensures Used(g, f, b) <==> b < freeblock { SameBitmap(g, full, a, x, b); }
  }

  /** The free blocks are those from freeblock on. */
  lemma FilledFree(g: Geo, disk: Disk, full: Disk, freeblock: nat)
    requires Filled(g, disk, full, freeblock)
    ensures FreeCount(g, full) == g.size - freeblock
  {
    hide Used;
    assert Spare(g, full) == Range(freeblock, g.size);
  }

  ghost function Range(lo: nat, hi: nat): (r: set<nat>)
    requires lo <= hi
    ensures |r| == hi - lo && forall b: nat :: b in r <==> lo <= b < hi
    decreases hi
  {
    if lo == hi then {} else Range(lo, hi - 1) + {hi - 1}
  }

  class Image {
    const g: Geo
    var disk: Disk
    var mem: seq<Inode>
    var freeinode: nat
    var freeblock: nat
    ghost var full: Disk              // disk as it will be with its bitmap
    ghost var owner: map<nat, Slot>

    ghost predicate Shape() reads this {
      && Filled(g, disk, full, freeblock) && |mem| == g.ninodes && Own(g, full, mem, owner, {})
    }

    ghost predicate Valid() reads this {
      && Shape() && NoHoles(full, mem) && FreeClean(mem)
      && (forall n :: 0 <= n < |mem| ==> mem[n].size <= MAXFILE * BSIZE && Tight(full, mem[n], mem[n].size))
      && 0 < freeinode && (forall n :: freeinode <= n < |mem| ==> mem[n] == EmptyInode())
    }

    /** All zeroes. */
    constructor (g: Geo)
      requires ValidGeo(g)
      ensures Valid() && this.g == g && |mem| == g.ninodes && freeinode == 1 && freeblock == g.nmeta
    {
      this.g := g;
      disk := seq(g.size, _ => ZeroBlock());
      mem := seq(g.ninodes, _ => EmptyInode());
      freeinode, freeblock := 1, g.nmeta;
      owner := map[];
      full := Marked(g, g.nmeta);
      new;
      EmptyImage(g);
    }

    /** ialloc */
    method IAlloc(kind: nat) returns (inum: nat)
      requires Valid() && freeinode < |mem| && kind != 0
      modifies this`mem, this`freeinode
      ensures Valid() && inum == old(freeinode) && freeinode == old(freeinode) + 1
      ensures mem == old(mem)[inum := EmptyInode().(kind := kind, nlink := 1)]
    {
      hide Own, Filled;
      inum := freeinode;
      freeinode := freeinode + 1;
      mem := mem[inum := EmptyInode().(kind := kind, nlink := 1)];
      SameAddrs(g, full, old(mem), mem, owner, inum);
      assert forall n :: 0 <= n < |mem| ==> mem[n].addrs == old(mem)[n].addrs && mem[n].size == old(mem)[n].size;
      NewInode(full, old(mem), mem);
    }

    /** The next free block becomes pointer i of the inode; false when the image is full. */
    method TakePtr(inum: nat, i: nat) returns (ok: bool)
      requires Shape() && inum < |mem| && i <= NDIRECT && mem[inum].addrs[i] == 0
      modifies this`mem, this`freeblock, this`full, this`owner
      ensures Shape() && ok == (old(freeblock) < g.size) && freeblock == old(freeblock) + if ok then 1 else 0
      ensures !ok ==> mem == old(mem) && full == old(full)
      ensures ok ==> mem == old(mem)[inum := old(mem)[inum].(addrs := old(mem)[inum].addrs[i := old(freeblock)])]
      ensures ok ==> Keeps(old(full), old(mem), full, mem)
      ensures ok ==> forall s :: ValidSlot(|mem|, s) ==>
        AddrOf(full, mem, s) == if s == Ptr(inum, i) then old(freeblock) else AddrOf(old(full), old(mem), s)
    {
      hide Own, Keeps, Filled, AddrOf;
      ghost var b := freeblock;
      FilledSize(g, disk, full, freeblock);
      if freeblock >= g.size { return false; }
      FilledMore(g, disk, full, freeblock);
      AllocPtr(g, full, mem, owner, b, inum, i);
      forall s | ValidSlot(|mem|, s)
        ensures AddrOf(AllocBlock(g, full, b), mem[inum := mem[inum].(addrs := mem[inum].addrs[i := b])], s)
             == if s == Ptr(inum, i) then b else AddrOf(full, mem, s)
      {
        AllocAddr(g, full, mem, owner, b, inum, i, s);
      }
      full := AllocBlock(g, full, b);
      owner := owner[b := Ptr(inum, i)];
      mem := mem[inum := mem[inum].(addrs := mem[inum].addrs[i := freeblock])];
      freeblock := freeblock + 1;
      ok := true;
    }

    /** The next free block becomes entry j of the inode's indirect block. */
    method TakeEntry(inum: nat, j: nat) returns (ok: bool)
      requires Shape() && inum < |mem| && j < NINDIRECT && mem[inum].addrs[NDIRECT] != 0
      requires BlockOf(full, mem[inum], NDIRECT + j) == 0
      modifies this`disk, this`freeblock, this`full, this`owner
      ensures Shape() && ok == (old(freeblock) < g.size) && freeblock == old(freeblock) + if ok then 1 else 0
      ensures !ok ==> full == old(full)
      ensures ok ==> Keeps(old(full), mem, full, mem)
      ensures ok ==> forall s :: ValidSlot(|mem|, s) ==>
        AddrOf(full, mem, s) == if s == Entry(inum, j) then old(freeblock) else AddrOf(old(full), mem, s)
    {
      hide Own, Keeps, Filled, AddrOf, BlockOf, Used, SetWord;
      ghost var b, ib := freeblock, mem[inum].addrs[NDIRECT];
      FilledSize(g, disk, full, freeblock);
      if freeblock >= g.size { return false; }
      IndirectTaken(g, disk, full, freeblock, mem, owner, inum);
      FilledMore(g, disk, full, freeblock);
      AllocEntry(g, full, mem, owner, b, inum, j);
      ghost var f := AllocBlock(g, full, b);
      FilledWrite(g, disk, f, b + 1, ib, SetWord(f[ib], j, b));
      forall s | ValidSlot(|mem|, s)
        ensures AddrOf(f[ib := SetWord(f[ib], j, b)], mem, s) == if s == Entry(inum, j) then b else AddrOf(full, mem, s)
      {
        EntryTaken(g, full, mem, owner, b, inum, j, s);
      }
      var at := mem[inum].addrs[NDIRECT];
      disk := disk[at := SetWord(disk[at], j, freeblock)];
      full := f[ib := SetWord(f[ib], j, b)];
      owner := owner[b := Entry(inum, j)];
      freeblock := freeblock + 1;
      ok := true;
    }

    /** The block for block bn of the file, taken if it is not there. */
    method BlockFor(inum: nat, bn: nat) returns (ok: bool, x: nat)
      requires Shape() && inum < |mem| && bn < MAXFILE
      modifies this`disk, this`mem, this`freeblock, this`full, this`owner
      ensures Shape() && AddrsOnly(old(mem), mem, inum)
      ensures if ok then x != 0 && x == BlockOf(full, mem[inum], bn) else freeblock == g.size
      ensures ok <==> old(freeblock) + Lack(old(full), old(mem)[inum], bn) <= g.size
      ensures ok ==> freeblock == old(freeblock) + Lack(old(full), old(mem)[inum], bn)
      ensures ok ==> Keeps(old(full), old(mem), full, mem)
      ensures ok ==> SlotsBut(old(full), old(mem), full, mem, inum, bn)
      ensures ok ==> SameIndirect(old(mem)[inum], mem[inum], bn)
    {
      hide Own, Keeps, Filled, AddrOf, BlockOf, SlotsBut, Missing;
      FilledSize(g, disk, full, freeblock);
      MissingOne(full, mem[inum], bn);
      ok, x := PtrFor(inum, if bn < NDIRECT then bn else NDIRECT, bn);
      if ok {
        if bn < NDIRECT {
          DirectIs(full, mem[inum], bn);
        } else {
          ghost var d1, m1 := full, mem;
          ok, x := EntryFor(inum, bn);
          if ok { TakenTwice(old(full), old(mem), d1, m1, full, mem, inum, bn); }
        }
      }
    }

    /** din.addrs[i], taken if it is empty; i is what block bn of the file needs first. */
    method PtrFor(inum: nat, i: nat, ghost bn: nat) returns (ok: bool, x: nat)
      requires Shape() && inum < |mem| && bn < MAXFILE && i == if bn < NDIRECT then bn else NDIRECT
      modifies this`mem, this`freeblock, this`full, this`owner
      ensures Shape() && AddrsOnly(old(mem), mem, inum)
      ensures if ok then x != 0 && x == mem[inum].addrs[i] else freeblock == g.size
      ensures ok <==> old(mem)[inum].addrs[i] != 0 || old(freeblock) < g.size
      ensures ok ==> freeblock == old(freeblock) + if old(mem)[inum].addrs[i] == 0 then 1 else 0
      ensures ok ==> Keeps(old(full), old(mem), full, mem) && SlotsBut(old(full), old(mem), full, mem, inum, bn)
      ensures ok ==> mem[inum].addrs == old(mem)[inum].addrs[i := x]
      ensures ok && i == NDIRECT ==> Missing(full, mem[inum], bn) == Missing(old(full), old(mem)[inum], bn)
    {
      hide Own, Keeps, Filled, AddrOf, BlockOf, SlotsBut, Missing;
      FilledSize(g, disk, full, freeblock);
      KeepsSelf(full, mem, inum, bn);
      ok := true;
      if mem[inum].addrs[i] == 0 {
        ghost var d0, m0 := full, mem;
        ok := TakePtr(inum, i);
        FilledSize(g, disk, full, freeblock);
        if ok {
          ChangedPtr(d0, m0, full, mem, inum, i, bn);
          if i == NDIRECT { SameMissing(d0, m0, full, mem, inum, bn); }
        }
      }
      x := mem[inum].addrs[i];
    }

    /** The indirect entry for block bn, taken if it is empty. */
    method EntryFor(inum: nat, bn: nat) returns (ok: bool, x: nat)
      requires Shape() && inum < |mem| && NDIRECT <= bn < MAXFILE && mem[inum].addrs[NDIRECT] != 0
      modifies this`disk, this`freeblock, this`full, this`owner
      ensures Shape()
      ensures if ok then x != 0 && x == BlockOf(full, mem[inum], bn) else freeblock == g.size
      ensures ok <==> old(freeblock) + Missing(old(full), mem[inum], bn) <= g.size
      ensures ok ==> freeblock == old(freeblock) + Missing(old(full), mem[inum], bn)
      ensures ok ==> Keeps(old(full), mem, full, mem) && SlotsBut(old(full), mem, full, mem, inum, bn)
    {
      hide Own, Keeps, Filled, AddrOf, BlockOf, SlotsBut, Missing;
      FilledSize(g, disk, full, freeblock);
      KeepsSelf(full, mem, inum, bn);
      IndirectTaken(g, disk, full, freeblock, mem, owner, inum);
      IndirectIs(full, mem[inum], bn);
      MissingIs(full, mem[inum], bn);
      ok, x := true, WordAt(disk[mem[inum].addrs[NDIRECT]], bn - NDIRECT);
      if x == 0 {
        ghost var d1 := full;
        ok := TakeEntry(inum, bn - NDIRECT);
        FilledSize(g, disk, full, freeblock);
        if ok {
          ChangedEntry(d1, full, mem, inum, bn);
          IndirectTaken(g, disk, full, freeblock, mem, owner, inum);
          IndirectIs(full, mem[inum], bn);
          x := WordAt(disk[mem[inum].addrs[NDIRECT]], bn - NDIRECT);
        }
      }
    }

    /** iappend: data goes behind what is there. When the image is full, rsect cannot read the block
        behind its end, and mkfs dies. */
    method IAppend(inum: nat, data: seq<Byte>) returns (ok: bool)
      requires Valid() && inum < freeinode && inum < |mem| && mem[inum].kind != 0
      requires mem[inum].size + |data| <= MAXFILE * BSIZE
      modifies this`disk, this`mem, this`freeblock, this`full, this`owner
      ensures if ok then Valid() else freeblock == g.size
      ensures ok <==> Affords(g, old(full), old(mem)[inum], old(mem)[inum].size + |data|)
      ensures ok ==> Conserves(g, old(full), old(mem)[inum], full, mem[inum])
      ensures ok ==>
        freeblock == old(freeblock) + Takes(mem[inum], mem[inum].size) - Takes(old(mem)[inum], old(mem)[inum].size)
      ensures ok ==> KeepsBut(old(full), old(mem), full, mem, inum)
      ensures ok ==> mem[inum] == old(mem)[inum].(addrs := mem[inum].addrs, size := old(mem)[inum].size + |data|)
      ensures ok ==> Content(full, mem[inum]) == Content(old(full), old(mem)[inum]) + data
    {
      hide Own, Filled, BlockOf, ByteAt, Covered, Tight, Written, KeepsBut, SlotsBut, NoHoles, FreeClean, Content,
        Paid, Affords, Conserves, FreeCount, Takes, Lack, SameIndirect, Appended;
      ghost var d0, m0 := full, mem;
      FilledFree(g, disk, full, freeblock);
      AppendPaid(g, d0, m0, inum);
      var size := mem[inum].size;
      ghost var c := Content(d0, m0[inum]);
      AppendStart(d0, m0, inum, data);
      var off, i := size, 0;
      while i < |data|
        invariant i <= |data| && off == size + i && Shape()
        invariant Appended(d0, m0, full, mem, inum, data, i) && Paid(g, d0, m0[inum], full, mem[inum], off)
      {
        FilledFree(g, disk, full, freeblock);
        AppendNext(g, d0, m0, full, mem, inum, data, i);
        ghost var d1, m1 := full, mem;
        var fbn := off / BSIZE;
        SameSpot(off);
        var x;
        ok, x := BlockFor(inum, fbn);
        var n1 := Min(|data| - i, (fbn + 1) * BSIZE - off);
        if !ok {
          PaidShort(g, d0, m0[inum], d1, m1[inum], off, n1, size + |data|);
          WriteFails(g, d0, m0[inum], size + |data|);
          return;
        }
        FilledFree(g, disk, full, freeblock);
        DataTaken(g, disk, full, freeblock, mem, owner, inum, fbn);
        FilledSize(g, disk, full, freeblock);
        ghost var d2 := full;
        var buf := Patch(disk[x], off - fbn * BSIZE, data[i..i + n1]);
        FilledWrite(g, disk, full, freeblock, x, buf);
        DataFree(g, full, x, buf);
        PatchBytes(g, full, mem, owner, inum, fbn, buf);
        PatchOthers(g, full, mem, owner, inum, fbn, buf);
        AppendStep(g, d0, m0, d1, m1, d2, full[x := buf], mem, owner, inum, data, i, n1);
        AppendMore(g, d0, m0, d1, m1, full[x := buf], mem, inum, data, i, n1);
        disk := disk[x := buf];
        full := full[x := buf];
        off, i := off + n1, i + n1;
      }
      ghost var m1 := mem;
      PaidAll(g, d0, m0[inum], full, m1[inum], off);
      FilledFree(g, disk, full, freeblock);
      AppendedAddrs(d0, m0, full, m1, inum, data, i);
      mem := mem[inum := mem[inum].(size := off)];
      PaidWrote(g, d0, m0[inum], full, m1[inum], mem[inum], off);
      ConservesParts(g, d0, m0[inum], full, mem[inum]);
      AppendEnds(g, d0, m0, full, m1, mem, owner, inum, data, freeinode);
      ok := true;
    }

    /** main's check on the space left; before is what freeblock was when the root directory had
        been made. The difference never wraps, and it counts the root directory's blocks as free. */
    method Margin(before: nat) returns (ok: bool)
      requires Valid() && g.nmeta <= before <= freeblock
      ensures ok <==> g.size - freeblock + (before - g.nmeta) >= 2 * MAXFILE
    {
      hide Own, Filled, NoHoles, Tight, FreeClean;
      FilledSize(g, disk, full, freeblock);
      var nblocks := g.size - g.nmeta;
      var used := (freeblock + UINT - before) % UINT;
      NoWrap(freeblock, before);
      NoWrap(nblocks, used);
      ok := (nblocks + UINT - used) % UINT >= 2 * MAXFILE;
    }

    /** balloc of mkfs: one bitmap block, with a bit for each of the blocks taken. The C aborts
        when they do not fit. */
    method Balloc() returns (ok: bool, ghost marks: Block)
      requires Filled(g, disk, full, freeblock)
      modifies this`disk
      ensures ok == (freeblock < BPB)
      ensures !ok ==> disk == old(disk)
      ensures ok ==> MarksFirst(marks, freeblock)
      ensures ok ==> g.bmapstart < |old(disk)| && disk == old(disk)[g.bmapstart := marks]
    {
      BitmapBelow(g, 0);
      hide BitAt, SetBit, Used;
      ok, marks := freeblock < BPB, ZeroBlock();
      if !ok { return; }
      var buf: Block := ZeroBlock();
      ZeroMarks(buf);
      var i := 0;
      while i < freeblock
        invariant i <= freeblock && MarksFirst(buf, i) && disk == old(disk)
      {
        forall j: nat | j < BPB ensures BitAt(SetBit(buf, i), j) <==> j < i + 1 { SetBitAt(buf, i, j); }
        buf := SetBit(buf, i);
        i := i + 1;
      }
      disk := disk[g.bmapstart := buf];
      marks := buf;
    }

    /** The end of main: the root directory's size is rounded up to whole blocks, always by
        something, and the bitmap is written. The image is then in order, and free of holes
        unless the directory filled its last block exactly. */
    method Finish() returns (ok: bool)
      requires Valid() && ROOTINO < |mem| && mem[ROOTINO].kind != 0
      modifies this`disk, this`mem
      ensures ok == (freeblock < BPB) && |mem| == |old(mem)|
      ensures ok ==> |disk| == g.size && Own(g, disk, mem, owner, {}) && FreeClean(mem) && AllTight(disk, mem)
      ensures ok ==> (NoHoles(disk, mem) <==> old(mem)[ROOTINO].size % BSIZE != 0)
      ensures ok ==> forall n :: 0 <= n < |mem| && n != ROOTINO ==>
        && mem[n] == old(mem)[n] && mem[n].size <= MAXFILE * BSIZE
        && Content(disk, mem[n]) == Content(old(full), old(mem)[n])
    {
      FilledSize(g, disk, full, freeblock);
      hide Own, Filled, Covered, Content, MarksFirst, Tight, AllTight, Marked;
      var off := mem[ROOTINO].size;
      off := (off / BSIZE + 1) * BSIZE;
      mem := mem[ROOTINO := mem[ROOTINO].(size := off)];
      ghost var buf;
      ok, buf := Balloc();
      if ok {
        SameAddrs(g, full, old(mem), mem, owner, ROOTINO);
        BitmapIn(g, old(disk), full, freeblock, mem, owner, buf);
        SameFiles(g, old(disk), full, freeblock, mem, owner, buf);
        RootHole(full, old(mem), disk, mem);
        RootTight(full, old(mem), disk, mem);
        forall n | 0 <= n < |mem| && n != ROOTINO ensures Content(disk, mem[n]) == Content(full, old(mem)[n]) {
          SameContent(full, disk, mem[n]);
        }
      }
    }
  }

  function EmptyInode(): Inode { Inode(0, 0, 0, seq(NDIRECT + 1, _ => 0)) }

  lemma FilledSize(g: Geo, disk: Disk, full: Disk, freeblock: nat)
    requires Filled(g, disk, full, freeblock)
    ensures |disk| == |full| == g.size && 0 < g.nmeta <= freeblock <= g.size && ValidGeo(g)
  {
  }

  // ---- the empty image -------------------------------------------------------------------------

  lemma {:induction false} ZeroBit(i: nat)
    ensures !Bit(0, i)
  {
    if i > 0 { ZeroBit(i - 1); }
  }

  /** An image with the bits below n set. */
  ghost function Marked(g: Geo, n: nat): (d: Disk)
    requires ValidGeo(g) && n <= g.size
    ensures |d| == g.size && forall b: nat :: b < g.size ==> (Used(g, d, b) <==> b < n)
    ensures forall b: nat :: b < g.size && !(g.bmapstart <= b < g.nmeta) ==> d[b] == ZeroBlock()
  {
    if n == 0 then
      var d := seq(g.size, _ => ZeroBlock());
      assert forall b: nat :: b < g.size ==> !Used(g, d, b) by { NothingUsed(g, d); }
      d
    else
      var d := Marked(g, n - 1);
      BitmapBelow(g, n - 1);
      OneMore(g, d, n - 1);
      d[BBLOCK(g, n - 1) := SetBit(d[BBLOCK(g, n - 1)], (n - 1) % BPB)]
  }

  lemma NothingUsed(g: Geo, d: Disk)
    requires ValidGeo(g) && |d| == g.size && forall b: nat :: b < g.size ==> d[b] == ZeroBlock()
    ensures forall b: nat :: b < g.size ==> !Used(g, d, b)
  {
    forall b: nat | b < g.size ensures !Used(g, d, b) {
      BitmapBelow(g, b);
      ZeroBit(b % BPB % 8);
    }
  }

  lemma OneMore(g: Geo, d: Disk, n: nat)
    requires ValidGeo(g) && |d| == g.size && n < g.size && forall b: nat :: b < g.size ==> (Used(g, d, b) <==> b < n)
    ensures BBLOCK(g, n) < g.size && !BitAt(d[BBLOCK(g, n)], n % BPB)
    ensures var d' := d[BBLOCK(g, n) := SetBit(d[BBLOCK(g, n)], n % BPB)];
      forall b: nat :: b < g.size ==> (Used(g, d', b) <==> b < n + 1)
  {
    BitmapBelow(g, n);
    assert !Used(g, d, n);
    hide SetBit, BitAt;
    var d' := d[BBLOCK(g, n) := SetBit(d[BBLOCK(g, n)], n % BPB)];
    forall b: nat | b < g.size ensures Used(g, d', b) <==> b < n + 1 {
      BitmapBelow(g, b);
      assert Used(g, d, b) <==> b < n;
      if b / BPB == n / BPB { SetBitAt(d[BBLOCK(g, n)], n % BPB, b % BPB); }
    }
  }

  lemma EmptyImage(g: Geo)
    requires ValidGeo(g)
    ensures var d, m := Marked(g, g.nmeta), seq(g.ninodes, _ => EmptyInode());
      && Filled(g, seq(g.size, _ => ZeroBlock()), d, g.nmeta) && Own(g, d, m, map[], {})
      && NoHoles(d, m) && FreeClean(m) && forall n :: 0 <= n < |m| ==> Tight(d, m[n], 0)
  {
  }

  lemma NewInode(d: Disk, m0: seq<Inode>, m: seq<Inode>)
    requires |m| == |m0| && forall n :: 0 <= n < |m| ==> m[n].addrs == m0[n].addrs && m[n].size == m0[n].size
    ensures NoHoles(d, m0) ==> NoHoles(d, m)
    ensures forall n, size: nat :: 0 <= n < |m| && Tight(d, m0[n], size) ==> Tight(d, m[n], size)
  {
    forall n, bn: nat | 0 <= n < |m| && bn < MAXFILE ensures BlockOf(d, m[n], bn) == BlockOf(d, m0[n], bn) {}
    hide BlockOf;
    if NoHoles(d, m0) {
      forall n | 0 <= n < |m| ensures Covered(d, m[n], m[n].size) { assert Covered(d, m0[n], m0[n].size); }
    }
  }

  // ---- taking blocks ---------------------------------------------------------------------------

  lemma IndirectTaken(g: Geo, disk: Disk, full: Disk, freeblock: nat, mem: seq<Inode>, owner: map<nat, Slot>, n: nat)
    requires Filled(g, disk, full, freeblock) && Own(g, full, mem, owner, {}) && n < |mem| && mem[n].addrs[NDIRECT] != 0
    ensures g.nmeta <= mem[n].addrs[NDIRECT] < freeblock && disk[mem[n].addrs[NDIRECT]] == full[mem[n].addrs[NDIRECT]]
  {
    hide Used, ZeroBlock;
    assert AddrOf(full, mem, Ptr(n, NDIRECT)) == mem[n].addrs[NDIRECT];
  }

  lemma DataTaken(g: Geo, disk: Disk, full: Disk, freeblock: nat, mem: seq<Inode>, owner: map<nat, Slot>, n: nat,
                  bn: nat)
    requires Filled(g, disk, full, freeblock) && Own(g, full, mem, owner, {}) && n < |mem| && bn < MAXFILE
    requires BlockOf(full, mem[n], bn) != 0
    ensures var x := BlockOf(full, mem[n], bn); g.nmeta <= x < freeblock && disk[x] == full[x]
  {
    DataOwned(g, full, mem, owner, n, bn);
    hide Used, ZeroBlock, BlockOf, AddrOf;
  }

  lemma EntryTaken(g: Geo, d: Disk, mem: seq<Inode>, owner: map<nat, Slot>, b: nat, n: nat, j: nat, s: Slot)
    requires Own(g, d, mem, owner, {}) && b < g.size && !Used(g, d, b)
    requires n < |mem| && j < NINDIRECT && mem[n].addrs[NDIRECT] != 0 && ValidSlot(|mem|, s)
    requires g.nmeta <= mem[n].addrs[NDIRECT] < g.size && mem[n].addrs[NDIRECT] != b
    ensures var ib := mem[n].addrs[NDIRECT]; var f := AllocBlock(g, d, b);
      AddrOf(f[ib := SetWord(f[ib], j, b)], mem, s) == if s == Entry(n, j) then b else AddrOf(d, mem, s)
  {
    BitmapBelow(g, b);
    EntryAddr(g, d, mem, owner, b, n, j, s);
  }

  /** Of all slots at most those of block bn of inode n have changed. */
  ghost predicate SlotsBut(d: Disk, m: seq<Inode>, d': Disk, m': seq<Inode>, n: nat, bn: nat) {
    |m'| == |m| && forall s :: ValidSlot(|m|, s) && s != SlotOf(n, bn) && s != Ptr(n, NDIRECT) ==>
      AddrOf(d', m', s) == AddrOf(d, m, s)
  }

  lemma KeepsSelf(d: Disk, m: seq<Inode>, n: nat, bn: nat)
    ensures Keeps(d, m, d, m) && SlotsBut(d, m, d, m, n, bn)
  {
  }

  lemma TakenTwice(d: Disk, m: seq<Inode>, d1: Disk, m1: seq<Inode>, d2: Disk, m2: seq<Inode>, n: nat, bn: nat)
    requires Keeps(d, m, d1, m1) && Keeps(d1, m1, d2, m2) && SlotsBut(d, m, d1, m1, n, bn)
    requires SlotsBut(d1, m1, d2, m2, n, bn)
    ensures Keeps(d, m, d2, m2) && SlotsBut(d, m, d2, m2, n, bn)
  {
  }

  lemma ChangedPtr(d: Disk, m: seq<Inode>, d': Disk, m': seq<Inode>, n: nat, i: nat, bn: nat)
    requires |m'| == |m| && (i == NDIRECT || i == bn < NDIRECT)
    requires forall s :: ValidSlot(|m|, s) && s != Ptr(n, i) ==> AddrOf(d', m', s) == AddrOf(d, m, s)
    ensures SlotsBut(d, m, d', m', n, bn)
  {
  }

  lemma ChangedEntry(d: Disk, d': Disk, m: seq<Inode>, n: nat, bn: nat)
    requires NDIRECT <= bn < MAXFILE
    requires n < |m|
    requires forall s :: ValidSlot(|m|, s) && s != Entry(n, bn - NDIRECT) ==> AddrOf(d', m, s) == AddrOf(d, m, s)
    ensures SlotsBut(d, m, d', m, n, bn)
    ensures AddrOf(d', m, Entry(n, bn - NDIRECT)) == BlockOf(d', m[n], bn)
  {
  }

  /** Only what block bn is found through has changed. */
  ghost predicate SameIndirect(ino: Inode, ino': Inode, bn: nat) {
    && (ino.addrs[NDIRECT] != 0 ==> ino'.addrs[NDIRECT] != 0)
    && (bn < NDIRECT ==> ino'.addrs[NDIRECT] == ino.addrs[NDIRECT])
  }

  lemma MissingIs(d: Disk, ino: Inode, bn: nat)
    requires bn < MAXFILE
    ensures Missing(d, ino, bn) == if BlockOf(d, ino, bn) == 0 then 1 else 0
  {
  }

  /** A direct block is missing exactly when its pointer is 0, and an entry when there is no
      indirect block at the least. */
  lemma MissingOne(d: Disk, ino: Inode, bn: nat)
    requires bn < MAXFILE
    ensures bn < NDIRECT ==> Missing(d, ino, bn) == if ino.addrs[bn] == 0 then 1 else 0
    ensures bn >= NDIRECT && ino.addrs[NDIRECT] == 0 ==> Missing(d, ino, bn) == 1
  {
  }

  lemma SameMissing(d: Disk, m: seq<Inode>, d': Disk, m': seq<Inode>, n: nat, bn: nat)
    requires n < |m| == |m'| && NDIRECT <= bn < MAXFILE
    requires AddrOf(d', m', Entry(n, bn - NDIRECT)) == AddrOf(d, m, Entry(n, bn - NDIRECT))
    ensures Missing(d', m'[n], bn) == Missing(d, m[n], bn)
  {
    SlotBlock(d, m, n, bn);
    SlotBlock(d', m', n, bn);
    hide AddrOf, BlockOf;
  }

  // ---- appending -------------------------------------------------------------------------------

  /** iappend has copied i bytes of data. */
  ghost predicate Appended(d0: Disk, m0: seq<Inode>, d: Disk, m: seq<Inode>, n: nat, data: seq<Byte>, i: nat) {
    && AddrsOnly(m0, m, n) && KeepsBut(d0, m0, d, m, n) && m0[n].size + |data| <= MAXFILE * BSIZE && i <= |data|
    && Written(d, m[n], Content(d0, m0[n]), m0[n].size, data, i) && Tight(d, m[n], m0[n].size + i)
    && OthersSame(d0, m0, d, m, n)
  }

  ghost predicate OthersSame(d0: Disk, m0: seq<Inode>, d: Disk, m: seq<Inode>, n: nat) {
    |m| == |m0| && forall s :: ValidSlot(|m|, s) && s.inum != n ==> AddrOf(d, m, s) == AddrOf(d0, m0, s)
  }

  lemma AppendStart(d: Disk, m: seq<Inode>, n: nat, data: seq<Byte>)
    requires n < |m| && NoHoles(d, m) && m[n].size + |data| <= MAXFILE * BSIZE && Tight(d, m[n], m[n].size)
    ensures Appended(d, m, d, m, n, data, 0)
  {
  }

  lemma AppendStep(g: Geo, d0: Disk, m0: seq<Inode>, d1: Disk, m1: seq<Inode>, d2: Disk, d3: Disk, mem: seq<Inode>,
                   owner: map<nat, Slot>, n: nat, data: seq<Byte>, i: nat, n1: nat)
    requires Appended(d0, m0, d1, m1, n, data, i) && i < |data| && 0 < n1 <= |data| - i
    requires var off := m0[n].size + i; n1 == Min(|data| - i, (off / BSIZE + 1) * BSIZE - off)
    requires Keeps(d1, m1, d2, mem) && AddrsOnly(m1, mem, n) && SlotsBut(d1, m1, d2, mem, n, (m0[n].size + i) / BSIZE)
    requires var off := m0[n].size + i; var bn := off / BSIZE; var x := BlockOf(d2, mem[n], bn);
      && 0 < x < |d2| == |d3| && d3 == d2[x := Patch(d2[x], off - bn * BSIZE, data[i..i + n1])]
      && KeepsBut(d2, mem, d3, mem, n)
      && (forall b: nat :: b < MAXFILE ==> BlockOf(d3, mem[n], b) == BlockOf(d2, mem[n], b))
      && (forall b: nat :: b < MAXFILE && b != bn && BlockOf(d2, mem[n], b) != 0 ==>
            BlockOf(d2, mem[n], b) < |d2| && d3[BlockOf(d2, mem[n], b)] == d2[BlockOf(d2, mem[n], b)])
      && OthersSame(d2, mem, d3, mem, n)
    ensures Appended(d0, m0, d3, mem, n, data, i + n1)
  {
    var off := m0[n].size + i;
    var bn := off / BSIZE;
    var c := Content(d0, m0[n]);
    ContentSize(d0, m0[n]);
    SameSpot(off);
    hide BlockOf, ByteAt, Patch, KeepsBut, Keeps, Content;
    assert Covered(d1, m1[n], off);
    KeepsBytes(d1, m1, d2, mem, n, off);
    KeepsToBut(d1, m1, d2, mem, n);
    ButTwice(d0, m0, d1, m1, d2, mem, n);
    ButTwice(d0, m0, d2, mem, d3, mem, n);
    PatchedBytes(d2, mem[n], d3, bn, off - bn * BSIZE, data[i..i + n1], off);
    WrittenMore(d1, m1[n], c, m0[n].size, data, i, n1, d3, mem[n]);
    TightMore(d1, m1, d2, mem, d3, n, off, n1);
    OthersTwice(d0, m0, d1, m1, d2, mem, d3, n, bn);
  }

  lemma AppendPaid(g: Geo, d: Disk, m: seq<Inode>, n: nat)
    requires n < |m| && NoHoles(d, m) && Tight(d, m[n], m[n].size)
    ensures Paid(g, d, m[n], d, m[n], m[n].size)
  {
    hide Covered, Tight, Paid;
    PaidStart(g, d, m[n], m[n].size);
  }

  /** What the next piece of the data needs. */
  lemma AppendNext(g: Geo, d0: Disk, m0: seq<Inode>, d: Disk, m: seq<Inode>, n: nat, data: seq<Byte>, i: nat)
    requires Appended(d0, m0, d, m, n, data, i) && i < |data|
    ensures n < |m0| == |m| && m0[n].size + |data| <= MAXFILE * BSIZE
    ensures var off := m0[n].size + i;
      && off / BSIZE < MAXFILE && Max(m0[n].size, off) == off && Covered(d, m[n], off)
      && 0 < Min(|data| - i, (off / BSIZE + 1) * BSIZE - off) <= BSIZE - off % BSIZE
  {
    hide KeepsBut, OthersSame, Tight, Content, Covered;
    ContentSize(d0, m0[n]);
  }

  lemma AppendMore(g: Geo, d0: Disk, m0: seq<Inode>, d1: Disk, m1: seq<Inode>, d: Disk, m: seq<Inode>, n: nat,
                   data: seq<Byte>, i: nat, n1: nat)
    requires Appended(d0, m0, d1, m1, n, data, i) && Appended(d0, m0, d, m, n, data, i + n1) && 0 < n1
    requires var off := m0[n].size + i;
      && Paid(g, d0, m0[n], d1, m1[n], off) && n1 <= BSIZE - off % BSIZE && off / BSIZE < MAXFILE
      && FreeCount(g, d) == FreeCount(g, d1) - Lack(d1, m1[n], off / BSIZE)
      && SameIndirect(m1[n], m[n], off / BSIZE)
    ensures Paid(g, d0, m0[n], d, m[n], m0[n].size + i + n1)
  {
    hide KeepsBut, OthersSame, Tight, Content, Covered, Lack, FreeCount, Takes;
    ContentSize(d0, m0[n]);
    var off := m0[n].size + i;
    if off / BSIZE >= NDIRECT { assert NDIRECT * BSIZE < off + n1; }
    PaidMore(g, d0, m0[n], d1, m1[n], off, n1, d, m[n]);
  }

  lemma AppendedAddrs(d0: Disk, m0: seq<Inode>, d: Disk, m: seq<Inode>, n: nat, data: seq<Byte>, i: nat)
    requires Appended(d0, m0, d, m, n, data, i)
    ensures n < |m0| == |m| && m == m0[n := m0[n].(addrs := m[n].addrs)]
  {
  }

  lemma ConservesParts(g: Geo, d0: Disk, ino0: Inode, d: Disk, ino: Inode)
    requires Conserves(g, d0, ino0, d, ino)
    ensures FreeCount(g, d) + Takes(ino, ino.size) == FreeCount(g, d0) + Takes(ino0, ino0.size)
  {
  }

  lemma OthersTwice(d0: Disk, m0: seq<Inode>, d1: Disk, m1: seq<Inode>, d2: Disk, m: seq<Inode>, d3: Disk, n: nat,
                    bn: nat)
    requires OthersSame(d0, m0, d1, m1, n) && SlotsBut(d1, m1, d2, m, n, bn) && OthersSame(d2, m, d3, m, n)
    ensures OthersSame(d0, m0, d3, m, n)
  {
  }

  lemma TightMore(d1: Disk, m1: seq<Inode>, d2: Disk, m: seq<Inode>, d3: Disk, n: nat, off: nat, n1: nat)
    requires n < |m| == |m1| && Tight(d1, m1[n], off) && SlotsBut(d1, m1, d2, m, n, off / BSIZE) && 0 < n1
    requires forall b: nat :: b < MAXFILE ==> BlockOf(d3, m[n], b) == BlockOf(d2, m[n], b)
    ensures Tight(d3, m[n], off + n1)
  {
    forall b: nat | b < MAXFILE && off + n1 <= b * BSIZE ensures BlockOf(d3, m[n], b) == 0 {
      SlotBlock(d1, m1, n, b);
      SlotBlock(d2, m, n, b);
      hide BlockOf, AddrOf;
      assert b != off / BSIZE;
    }
  }

  lemma SlotBlock(d: Disk, m: seq<Inode>, n: nat, bn: nat)
    requires n < |m| && bn < MAXFILE
    ensures ValidSlot(|m|, SlotOf(n, bn)) && AddrOf(d, m, SlotOf(n, bn)) == BlockOf(d, m[n], bn)
    ensures SlotOf(n, bn) != Ptr(n, NDIRECT)
    ensures forall b: nat :: b < MAXFILE && SlotOf(n, b) == SlotOf(n, bn) ==> b == bn
  {
  }

  /** A data block's contents are no addresses. */
  lemma PatchOthers(g: Geo, d: Disk, mem: seq<Inode>, owner: map<nat, Slot>, n: nat, bn: nat, x: Block)
    requires Own(g, d, mem, owner, {}) && n < |mem| && bn < MAXFILE && BlockOf(d, mem[n], bn) != 0
    ensures |d| == g.size && BlockOf(d, mem[n], bn) < g.size
    ensures OthersSame(d, mem, d[BlockOf(d, mem[n], bn) := x], mem, n)
  {
    DataOwned(g, d, mem, owner, n, bn);
    var a := BlockOf(d, mem[n], bn);
    forall s | ValidSlot(|mem|, s) && s.inum != n ensures AddrOf(d[a := x], mem, s) == AddrOf(d, mem, s) {
      if s.Entry? { WriteKeepsAddr(g, d, mem, owner, a, x, s.inum, NDIRECT + s.j); }
    }
  }

  lemma AppendEnds(g: Geo, d0: Disk, m0: seq<Inode>, d: Disk, m1: seq<Inode>, m: seq<Inode>, owner: map<nat, Slot>,
                   n: nat, data: seq<Byte>, freeinode: nat)
    requires Own(g, d, m1, owner, {}) && Appended(d0, m0, d, m1, n, data, |data|) && NoHoles(d0, m0) && FreeClean(m0)
    requires m0[n].kind != 0 && m == m1[n := m1[n].(size := m0[n].size + |data|)]
    requires forall k :: 0 <= k < |m0| ==> m0[k].size <= MAXFILE * BSIZE && Tight(d0, m0[k], m0[k].size)
    requires n < freeinode && forall k :: freeinode <= k < |m0| ==> m0[k] == EmptyInode()
    ensures Own(g, d, m, owner, {}) && KeepsBut(d0, m0, d, m, n) && NoHoles(d, m) && FreeClean(m)
    ensures m[n].size <= MAXFILE * BSIZE && Content(d, m[n]) == Content(d0, m0[n]) + data
    ensures forall k :: 0 <= k < |m| ==> m[k].size <= MAXFILE * BSIZE && Tight(d, m[k], m[k].size)
    ensures forall k :: freeinode <= k < |m| ==> m[k] == EmptyInode()
  {
    ContentSize(d0, m0[n]);
    var c := Content(d0, m0[n]);
    assert Splice(c, |c|, data) == c + data by { assert c[..|c|] == c; }
    hide Own, NoHoles, BlockOf, ByteAt, Splice, Written, KeepsBut, FreeClean, Content;
    WriteEnds(g, d0, m0, d, m1, m, owner, n, c, |c|, data);
    forall k | 0 <= k < |m| ensures m[k].size <= MAXFILE * BSIZE && Tight(d, m[k], m[k].size) {
      if k == n { TightSame(d, m1[n], m[n], m[n].size); } else { TightOther(d0, m0, d, m1, n, k); }
    }
  }

  lemma TightSame(d: Disk, i1: Inode, i2: Inode, size: nat)
    requires Tight(d, i1, size) && i2.addrs == i1.addrs
    ensures Tight(d, i2, size)
  {
    forall b: nat | b < MAXFILE ensures BlockOf(d, i2, b) == BlockOf(d, i1, b) {}
  }

  lemma TightOther(d0: Disk, m0: seq<Inode>, d: Disk, m: seq<Inode>, n: nat, k: nat)
    requires AddrsOnly(m0, m, n) && OthersSame(d0, m0, d, m, n) && k < |m0| && k != n && Tight(d0, m0[k], m0[k].size)
    ensures m[k] == m0[k] && Tight(d, m[k], m[k].size)
  {
    forall b: nat | b < MAXFILE ensures BlockOf(d, m[k], b) == BlockOf(d0, m0[k], b) {
      SlotBlock(d0, m0, k, b);
      SlotBlock(d, m, k, b);
      hide BlockOf, AddrOf;
    }
  }

  // ---- the end ---------------------------------------------------------------------------------

  /** The first n bits are set and no others. */
  ghost predicate MarksFirst(buf: Block, n: nat) { forall j: nat :: j < BPB ==> (BitAt(buf, j) <==> j < n) }

  lemma ZeroMarks(buf: Block)
    requires buf == ZeroBlock()
    ensures MarksFirst(buf, 0)
  {
    forall j: nat | j < BPB ensures !BitAt(buf, j) { ZeroBit(j % 8); }
  }

  /** With the bitmap block in place the disk is what full stands for. */
  lemma BitmapIn(g: Geo, disk: Disk, full: Disk, freeblock: nat, mem: seq<Inode>, owner: map<nat, Slot>, buf: Block)
    requires Filled(g, disk, full, freeblock) && Own(g, full, mem, owner, {})
    requires freeblock < BPB && MarksFirst(buf, freeblock)
    ensures g.bmapstart < |disk| && Own(g, disk[g.bmapstart := buf], mem, owner, {})
  {
    BitmapBelow(g, 0);
    FilledSize(g, disk, full, freeblock);
    hide Own, AddrOf, Used, Filled, MarksFirst, BitAt;
    var d := disk[g.bmapstart := buf];
    forall s | ValidSlot(|mem|, s) ensures AddrOf(d, mem, s) == AddrOf(full, mem, s) {
      BitmapAddr(g, disk, full, freeblock, mem, owner, buf, s);
    }
    forall b: nat | b < g.size ensures Used(g, d, b) <==> Used(g, full, b) {
      BitmapUsed(g, disk, full, freeblock, buf, b);
    }
    OwnSame(g, full, d, mem, owner);
  }

  lemma BitmapAddr(g: Geo, disk: Disk, full: Disk, freeblock: nat, mem: seq<Inode>, owner: map<nat, Slot>,
                   buf: Block, s: Slot)
    requires Filled(g, disk, full, freeblock) && Own(g, full, mem, owner, {}) && ValidSlot(|mem|, s)
    ensures g.bmapstart < |disk| && AddrOf(disk[g.bmapstart := buf], mem, s) == AddrOf(full, mem, s)
  {
    if s.Entry? && mem[s.inum].addrs[NDIRECT] != 0 { IndirectTaken(g, disk, full, freeblock, mem, owner, s.inum); }
    hide Used, Own;
  }

  lemma BitmapUsed(g: Geo, disk: Disk, full: Disk, freeblock: nat, buf: Block, b: nat)
    requires Filled(g, disk, full, freeblock) && freeblock < BPB && MarksFirst(buf, freeblock) && b < g.size
    ensures g.bmapstart < |disk| && (Used(g, disk[g.bmapstart := buf], b) <==> Used(g, full, b))
  {
    BitmapBelow(g, b);
    assert Used(g, full, b) <==> b < freeblock;
    if b / BPB == 0 {
      assert b % BPB == b && BBLOCK(g, b) == g.bmapstart;
    } else {
      assert disk[BBLOCK(g, b)] == ZeroBlock() && b >= BPB;
      ZeroBit(b % BPB % 8);
    }
  }

  lemma OwnSame(g: Geo, d: Disk, d': Disk, mem: seq<Inode>, owner: map<nat, Slot>)
    requires Own(g, d, mem, owner, {}) && |d'| == |d|
    requires forall s :: ValidSlot(|mem|, s) ==> AddrOf(d', mem, s) == AddrOf(d, mem, s)
    requires forall b: nat :: b < g.size ==> (Used(g, d', b) <==> Used(g, d, b))
    ensures Own(g, d', mem, owner, {})
  {
  }

  /** Files do not read the bitmap. */
  lemma SameFiles(g: Geo, disk: Disk, full: Disk, freeblock: nat, mem: seq<Inode>, owner: map<nat, Slot>, buf: Block)
    requires Filled(g, disk, full, freeblock) && Own(g, full, mem, owner, {})
    ensures g.bmapstart < |disk|
    ensures var d := disk[g.bmapstart := buf]; forall n, bn: nat :: 0 <= n < |mem| && bn < MAXFILE ==>
      && BlockOf(d, mem[n], bn) == BlockOf(full, mem[n], bn)
      && (BlockOf(full, mem[n], bn) != 0 ==> BlockOf(full, mem[n], bn) < |full| == |d|)
      && (BlockOf(full, mem[n], bn) != 0 ==> d[BlockOf(full, mem[n], bn)] == full[BlockOf(full, mem[n], bn)])
  {
    FilledSize(g, disk, full, freeblock);
    BitmapBelow(g, 0);
    var d := disk[g.bmapstart := buf];
    hide Own, Filled, BlockOf;
    forall n, bn: nat | 0 <= n < |mem| && bn < MAXFILE
      ensures BlockOf(d, mem[n], bn) == BlockOf(full, mem[n], bn)
      ensures BlockOf(full, mem[n], bn) != 0 ==> BlockOf(full, mem[n], bn) < |full| == |d|
      ensures BlockOf(full, mem[n], bn) != 0 ==> d[BlockOf(full, mem[n], bn)] == full[BlockOf(full, mem[n], bn)]
    {
      BitmapFile(g, disk, full, freeblock, mem, owner, buf, n, bn);
    }
  }

  lemma BitmapFile(g: Geo, disk: Disk, full: Disk, freeblock: nat, mem: seq<Inode>, owner: map<nat, Slot>,
                   buf: Block, n: nat, bn: nat)
    requires Filled(g, disk, full, freeblock) && Own(g, full, mem, owner, {}) && n < |mem| && bn < MAXFILE
    ensures g.bmapstart < |disk| == |full| && var d, b := disk[g.bmapstart := buf], BlockOf(full, mem[n], bn);
      BlockOf(d, mem[n], bn) == b && (b != 0 ==> b < |d| && d[b] == full[b])
  {
    FilledSize(g, disk, full, freeblock);
    BitmapBelow(g, 0);
    if mem[n].addrs[NDIRECT] != 0 { IndirectTaken(g, disk, full, freeblock, mem, owner, n); }
    if BlockOf(full, mem[n], bn) != 0 { DataTaken(g, disk, full, freeblock, mem, owner, n, bn); }
    hide Own, Filled, Used;
  }

  lemma SameContent(d: Disk, d': Disk, ino: Inode)
    requires ino.size <= MAXFILE * BSIZE && Covered(d, ino, ino.size)
    requires forall bn: nat :: bn < MAXFILE ==>
      && BlockOf(d', ino, bn) == BlockOf(d, ino, bn)
      && (BlockOf(d, ino, bn) != 0 ==> BlockOf(d, ino, bn) < |d| == |d'|)
      && (BlockOf(d, ino, bn) != 0 ==> d'[BlockOf(d, ino, bn)] == d[BlockOf(d, ino, bn)])
    ensures Content(d', ino) == Content(d, ino)
  {
  }

  lemma RootTight(d: Disk, m: seq<Inode>, d': Disk, m': seq<Inode>)
    requires |m'| == |m| && forall n :: 0 <= n < |m| ==> Tight(d, m[n], m[n].size)
    requires forall n :: 0 <= n < |m| ==> m'[n].addrs == m[n].addrs && m[n].size <= m'[n].size
    requires forall n, bn: nat :: 0 <= n < |m| && bn < MAXFILE ==> BlockOf(d', m'[n], bn) == BlockOf(d, m'[n], bn)
    ensures AllTight(d', m')
  {
    hide BlockOf;
    forall n | 0 <= n < |m| ensures Tight(d', m'[n], m'[n].size) {
      assert Tight(d, m[n], m[n].size);
      forall bn: nat | bn < MAXFILE && m'[n].size <= bn * BSIZE ensures BlockOf(d', m'[n], bn) == 0 {
        AddrsIs(d, m[n], m'[n], bn);
      }
    }
  }

  /** The last block that the rounded size asks for is there unless the size was whole. */
  lemma RootHole(d: Disk, m: seq<Inode>, d': Disk, m': seq<Inode>)
    requires ROOTINO < |m| && NoHoles(d, m) && Tight(d, m[ROOTINO], m[ROOTINO].size)
    requires m[ROOTINO].size <= MAXFILE * BSIZE
    requires m' == m[ROOTINO := m[ROOTINO].(size := (m[ROOTINO].size / BSIZE + 1) * BSIZE)]
    requires forall n, bn: nat :: 0 <= n < |m| && bn < MAXFILE ==> BlockOf(d', m'[n], bn) == BlockOf(d, m'[n], bn)
    ensures NoHoles(d', m') <==> m[ROOTINO].size % BSIZE != 0
  {
    var size := m[ROOTINO].size;
    var k := size / BSIZE;
    forall bn: nat | bn < MAXFILE ensures BlockOf(d', m'[ROOTINO], bn) == BlockOf(d, m[ROOTINO], bn) {
      AddrsIs(d, m[ROOTINO], m'[ROOTINO], bn);
    }
    hide BlockOf;
    assert Covered(d, m[ROOTINO], size);
    if size % BSIZE == 0 {
      assert k * BSIZE == size < m'[ROOTINO].size;
      if k < MAXFILE { assert BlockOf(d', m'[ROOTINO], k) == 0; }
      assert !Covered(d', m'[ROOTINO], m'[ROOTINO].size);
    } else {
      forall n | 0 <= n < |m'| ensures Covered(d', m'[n], m'[n].size) {
        assert Covered(d, m[n], m[n].size);
        if n == ROOTINO {
          forall bn: nat | bn * BSIZE < m'[n].size ensures BlockOf(d', m'[n], bn) != 0 {
            assert bn <= k && bn * BSIZE < size;
          }
        }
      }
    }
  }
}
