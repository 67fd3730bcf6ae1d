/** itruncate of libfs.c: a file made shorter gives back the blocks past its new end, and one
    made longer is filled with zeroes. */
module Resize {
  import opened Blocks
  import opened Inodes
  import opened InodeLayer
  import opened FileIO

  const T_DEVICE := 3

  /** Minus is -1; Fatal is the exit when no block is free. */
  datatype Outcome = Minus | Fatal | Resized

  function Zeroes(n: nat): (s: seq<Byte>)
    ensures |s| == n && forall i :: 0 <= i < n ==> s[i] == 0
  {
    seq(n, _ => 0)
  }

  /** What a file of these bytes is at the new size. */
  function Resized(c: seq<Byte>, size: nat): seq<Byte> {
    if size < |c| then c[..size] else c + Zeroes(size - |c|)
  }

  // ---- cutting blocks off ----------------------------------------------------------------------

  /** Blocks lo up to hi of file n are gone, and no other block of any file has changed. */
  ghost predicate Cut(d0: Disk, m0: seq<Inode>, d: Disk, m: seq<Inode>, n: nat, lo: nat, hi: nat) {
    && |d| == |d0| && AddrsOnly(m0, m, n)
    && forall k: nat, bn: nat :: k < |m0| && bn < MAXFILE ==> CutAt(d0, m0, d, m, n, lo, hi, k, bn)
  }

  ghost predicate CutAt(d0: Disk, m0: seq<Inode>, d: Disk, m: seq<Inode>, n: nat, lo: nat, hi: nat, k: nat, bn: nat)
    requires k < |m0| == |m| && bn < MAXFILE && |d| == |d0|
  {
    var b := BlockOf(d0, m0[k], bn);
    && BlockOf(d, m[k], bn) == (if k == n && lo <= bn < hi then 0 else b)
    && (b != 0 && !(k == n && lo <= bn < hi) ==> b < |d| && d[b] == d0[b])
  }

  lemma CutNothing(g: Geo, d: Disk, m: seq<Inode>, owner: map<nat, Slot>, n: nat, lo: nat)
    requires Own(g, d, m, owner, {}) && n < |m|
    ensures Cut(d, m, d, m, n, lo, lo)
  {
    assert |d| == g.size;
    hide Own, BlockOf;
    forall k: nat, bn: nat | k < |m| && bn < MAXFILE ensures CutAt(d, m, d, m, n, lo, lo, k, bn) {
      if BlockOf(d, m[k], bn) != 0 { DataOwned(g, d, m, owner, k, bn); }
    }
  }

  lemma CutMore(d0: Disk, m0: seq<Inode>, d1: Disk, m1: seq<Inode>, d2: Disk, m2: seq<Inode>, n: nat, lo: nat, hi: nat)
    requires Cut(d0, m0, d1, m1, n, lo, hi) && Cut(d1, m1, d2, m2, n, hi, hi + 1) && lo <= hi
    ensures Cut(d0, m0, d2, m2, n, lo, hi + 1)
  {
    hide BlockOf;
    var e := hi + 1;
    forall k: nat, bn: nat | k < |m0| && bn < MAXFILE ensures CutAt(d0, m0, d2, m2, n, lo, e, k, bn) {
      assert CutAt(d0, m0, d1, m1, n, lo, hi, k, bn) && CutAt(d1, m1, d2, m2, n, hi, e, k, bn);
    }
  }

  /** bfree of a direct block, and its pointer cleared. */
  lemma DirectCut(g: Geo, d: Disk, m: seq<Inode>, owner: map<nat, Slot>, n: nat, i: nat)
    requires Own(g, d, m, owner, {}) && n < |m| && i < NDIRECT && m[n].addrs[i] != 0
    ensures var b := m[n].addrs[i]; var m' := m[n := m[n].(addrs := m[n].addrs[i := 0])];
      && g.nmeta <= b < g.size && Used(g, d, b) && Own(g, FreeBlock(g, d, b), m', owner - {b}, {})
      && Cut(d, m, FreeBlock(g, d, b), m', n, i, i + 1)
  {
    var b, m' := m[n].addrs[i], m[n := m[n].(addrs := m[n].addrs[i := 0])];
    FreeDirect(g, d, m, owner, n, i);
    FreeDisk(g, d, b);
    var d' := FreeBlock(g, d, b);
    hide FreeBlock, Used;
    var e := i + 1;
    forall k: nat, bn: nat | k < |m| && bn < MAXFILE ensures CutAt(d, m, d', m', n, i, e, k, bn) {
      if m[k].addrs[NDIRECT] != 0 { IndirectBelow(g, d, m, owner, k); }
      if BlockOf(d, m[k], bn) != 0 { DataOwned(g, d, m, owner, k, bn); }
    }
  }

  /** bfree of an entry's block, and the entry cleared. */
  lemma EntryCut(g: Geo, d: Disk, m: seq<Inode>, owner: map<nat, Slot>, n: nat, j: nat)
    requires Own(g, d, m, owner, {}) && n < |m| && j < NINDIRECT && BlockOf(d, m[n], NDIRECT + j) != 0
    ensures var ib, b := m[n].addrs[NDIRECT], BlockOf(d, m[n], NDIRECT + j);
      && g.nmeta <= ib < g.size && g.nmeta <= b < g.size && Used(g, d, b) && b != ib
      && var f := FreeBlock(g, d, b);
      Own(g, f[ib := SetWord(f[ib], j, 0)], m, owner - {b}, {})
      && Cut(d, m, f[ib := SetWord(f[ib], j, 0)], m, n, NDIRECT + j, NDIRECT + j + 1)
  {
    var ib, b := m[n].addrs[NDIRECT], BlockOf(d, m[n], NDIRECT + j);
    hide FreeBlock, Used, SetWord, AddrOf, Own, BlockOf;
    EntryAt(g, d, m, owner, n, j);
    FreeDisk(g, d, b);
    var f := FreeBlock(g, d, b);
    assert f[ib] == d[ib];
    var d' := f[ib := SetWord(d[ib], j, 0)];
    EntryGone(g, d, m, owner, n, j, f);
    var lo, hi := NDIRECT + j, NDIRECT + j + 1;
    forall k: nat, bn: nat | k < |m| && bn < MAXFILE ensures CutAt(d, m, d', m, n, lo, hi, k, bn) {
      EntryBlockOf(g, d, m, owner, n, j, f, k, bn);
      if BlockOf(d, m[k], bn) != 0 { DataOwned(g, d, m, owner, k, bn); }
    }
  }

  /** The block of an entry, and the indirect block it is named in. */
  lemma EntryAt(g: Geo, d: Disk, m: seq<Inode>, owner: map<nat, Slot>, n: nat, j: nat)
    requires Own(g, d, m, owner, {}) && n < |m| && j < NINDIRECT && BlockOf(d, m[n], NDIRECT + j) != 0
    ensures ValidGeo(g) && |d| == g.size
    ensures var ib, b := m[n].addrs[NDIRECT], BlockOf(d, m[n], NDIRECT + j);
      && g.nmeta <= ib < g.size && g.nmeta <= b < g.size && Used(g, d, b) && b != ib
      && b in owner && owner[b] == Entry(n, j) && ib in owner && owner[ib] == Ptr(n, NDIRECT)
  {
    IndirectBelow(g, d, m, owner, n);
    DataOwned(g, d, m, owner, n, NDIRECT + j);
    IndirectOwned(g, d, m, owner, n);
  }

  lemma IndirectOwned(g: Geo, d: Disk, m: seq<Inode>, owner: map<nat, Slot>, n: nat)
    requires Own(g, d, m, owner, {}) && n < |m| && m[n].addrs[NDIRECT] != 0
    ensures m[n].addrs[NDIRECT] in owner && owner[m[n].addrs[NDIRECT]] == Ptr(n, NDIRECT)
  {
    assert AddrOf(d, m, Ptr(n, NDIRECT)) == m[n].addrs[NDIRECT];
  }

  /** f is d with other bits in its bitmap. */
  lemma EntryBlockOf(g: Geo, d: Disk, m: seq<Inode>, owner: map<nat, Slot>, n: nat, j: nat, f: Disk, k: nat, bn: nat)
    requires Own(g, d, m, owner, {}) && n < |m| && j < NINDIRECT && k < |m| && bn < MAXFILE && |f| == |d|
    requires g.nmeta <= m[n].addrs[NDIRECT] < g.size && forall a: nat :: g.nmeta <= a < g.size ==> f[a] == d[a]
    ensures var ib := m[n].addrs[NDIRECT];
      BlockOf(f[ib := SetWord(d[ib], j, 0)], m[k], bn)
      == if k == n && bn == NDIRECT + j then 0 else BlockOf(d, m[k], bn)
  {
    hide Own, SetWord, WordAt, ValidGeo;
    OwnShape(g, d, m, owner);
    InOrder(g);
    if m[k].addrs[NDIRECT] != 0 && bn >= NDIRECT {
      IndirectBelow(g, d, m, owner, k);
      IndirectOwned(g, d, m, owner, k);
      IndirectOwned(g, d, m, owner, n);
      SetWordAt(d[m[n].addrs[NDIRECT]], j, 0, bn - NDIRECT);
    }
  }

  lemma EntryGone(g: Geo, d: Disk, m: seq<Inode>, owner: map<nat, Slot>, n: nat, j: nat, f: Disk)
    requires Own(g, d, m, owner, {}) && n < |m| && j < NINDIRECT && BlockOf(d, m[n], NDIRECT + j) != 0 && |f| == |d|
    requires g.nmeta <= m[n].addrs[NDIRECT] < g.size && BlockOf(d, m[n], NDIRECT + j) in owner
    requires owner[BlockOf(d, m[n], NDIRECT + j)] == Entry(n, j)
    requires forall a: nat :: g.nmeta <= a < g.size ==> f[a] == d[a]
    requires forall b2: nat :: b2 < g.size ==>
      (Used(g, f, b2) <==> b2 != BlockOf(d, m[n], NDIRECT + j) && Used(g, d, b2))
    ensures var ib, b := m[n].addrs[NDIRECT], BlockOf(d, m[n], NDIRECT + j);
      Own(g, f[ib := SetWord(d[ib], j, 0)], m, owner - {b}, {})
  {
    var ib, b := m[n].addrs[NDIRECT], BlockOf(d, m[n], NDIRECT + j);
    var x := SetWord(d[ib], j, 0);
    hide Used, SetWord;
    forall s | ValidSlot(|m|, s) ensures AddrOf(f[ib := x], m, s) == if s == owner[b] then 0 else AddrOf(d, m, s) {
      if s.Entry? { EntryBlockOf(g, d, m, owner, n, j, f, s.inum, NDIRECT + s.j); }
    }
    forall b2: nat | b2 < g.size ensures Used(g, f[ib := x], b2) <==> b2 != b && Used(g, d, b2) {
      SameBitmap(g, f, ib, x, b2);
    }
    OwnShrinks(g, d, m, owner, b, f[ib := x], m);
  }

  /** bfree of an indirect block without entries. */
  lemma IndirectCut(g: Geo, d: Disk, m: seq<Inode>, owner: map<nat, Slot>, n: nat)
    requires Own(g, d, m, owner, {}) && n < |m| && m[n].addrs[NDIRECT] != 0
    requires forall bn: nat :: NDIRECT <= bn < MAXFILE ==> BlockOf(d, m[n], bn) == 0
    ensures var ib := m[n].addrs[NDIRECT]; var m' := m[n := m[n].(addrs := m[n].addrs[NDIRECT := 0])];
      && g.nmeta <= ib < g.size && Used(g, d, ib) && Own(g, FreeBlock(g, d, ib), m', owner - {ib}, {})
      && Cut(d, m, FreeBlock(g, d, ib), m', n, MAXFILE, MAXFILE)
  {
    var ib, m' := m[n].addrs[NDIRECT], m[n := m[n].(addrs := m[n].addrs[NDIRECT := 0])];
    IndirectBelow(g, d, m, owner, n);
    IndirectOwned(g, d, m, owner, n);
    FreeDisk(g, d, ib);
    var d' := FreeBlock(g, d, ib);
    hide FreeBlock, Used;
    forall k: nat, bn: nat | k < |m| && bn < MAXFILE ensures BlockOf(d', m'[k], bn) == BlockOf(d, m[k], bn) {
      if m[k].addrs[NDIRECT] != 0 { IndirectBelow(g, d, m, owner, k); }
    }
    forall k: nat, bn: nat | k < |m| && bn < MAXFILE ensures CutAt(d, m, d', m', n, MAXFILE, MAXFILE, k, bn) {
      if BlockOf(d, m[k], bn) != 0 { DataOwned(g, d, m, owner, k, bn); }
    }
    forall s | ValidSlot(|m|, s) ensures AddrOf(d', m', s) == if s == owner[ib] then 0 else AddrOf(d, m, s) {
      if s.Entry? { assert AddrOf(d', m', s) == BlockOf(d', m'[s.inum], NDIRECT + s.j); }
    }
    OwnShrinks(g, d, m, owner, ib, d', m');
  }

  // ---- itruncate -------------------------------------------------------------------------------

  /** How far the shorter file's blocks have been given back. */
  ghost predicate Cutting(fs: FileSystem, d0: Disk, m0: seq<Inode>, inum: nat, lo: nat, hi: nat)
    reads fs
  {
    fs.Shape() && inum < |m0| && Cut(d0, m0, fs.disk, fs.mem, inum, lo, hi)
  }

  method CutDirect(fs: FileSystem, inum: nat, i: nat, ghost d0: Disk, ghost m0: seq<Inode>, ghost lo: nat)
    requires lo <= i < NDIRECT && Cutting(fs, d0, m0, inum, lo, i) && BlockOf(d0, m0[inum], i) != 0
    modifies fs
    ensures Cutting(fs, d0, m0, inum, lo, i + 1) && fs.dinode == old(fs.dinode)
    ensures fs.mem[inum].addrs[NDIRECT] == old(fs.mem[inum].addrs[NDIRECT])
  {
    hide Own, Cut, FreeBlock, Used;
    CutOne(d0, m0, fs.disk, fs.mem, inum, lo, i, i);
    DirectIs(fs.disk, fs.mem[inum], i);
    ghost var d1, m1 := fs.disk, fs.mem;
    var b := fs.mem[inum].addrs[i];
    DirectCut(fs.g, fs.disk, fs.mem, fs.owner, inum, i);
    var panicked := fs.Bfree(b);
    fs.mem := fs.mem[inum := fs.mem[inum].(addrs := fs.mem[inum].addrs[i := 0])];
    fs.owner := fs.owner - {b};
    CutMore(d0, m0, d1, m1, fs.disk, fs.mem, inum, lo, i);
  }

  method CutEntry(fs: FileSystem, inum: nat, j: nat, ghost d0: Disk, ghost m0: seq<Inode>, ghost lo: nat)
    requires lo <= NDIRECT + j && j < NINDIRECT && Cutting(fs, d0, m0, inum, lo, NDIRECT + j)
    requires BlockOf(d0, m0[inum], NDIRECT + j) != 0
    modifies fs
    ensures Cutting(fs, d0, m0, inum, lo, NDIRECT + j + 1) && fs.dinode == old(fs.dinode)
    ensures fs.mem == old(fs.mem)
  {
    hide Own, Cut, FreeBlock, Used, SetWord;
    CutOne(d0, m0, fs.disk, fs.mem, inum, lo, NDIRECT + j, NDIRECT + j);
    ghost var d1, m1 := fs.disk, fs.mem;
    EntryCut(fs.g, fs.disk, fs.mem, fs.owner, inum, j);
    var ib := fs.mem[inum].addrs[NDIRECT];
    IndirectIs(fs.disk, fs.mem[inum], NDIRECT + j);
    var b := WordAt(fs.disk[ib], j);
    var panicked := fs.Bfree(b);
    fs.disk := fs.disk[ib := SetWord(fs.disk[ib], j, 0)];
    fs.owner := fs.owner - {b};
    CutMore(d0, m0, d1, m1, fs.disk, fs.mem, inum, lo, NDIRECT + j);
  }

  lemma CutOne(d0: Disk, m0: seq<Inode>, d: Disk, m: seq<Inode>, n: nat, lo: nat, hi: nat, bn: nat)
    requires Cut(d0, m0, d, m, n, lo, hi) && bn < MAXFILE
    ensures |m| == |m0| && |d| == |d0| && n < |m| && AddrsOnly(m0, m, n)
    ensures BlockOf(d, m[n], bn) == if lo <= bn < hi then 0 else BlockOf(d0, m0[n], bn)
  {
    assert CutAt(d0, m0, d, m, n, lo, hi, n, bn);
  }

  /** The shorter file. k and n are the numbers of blocks to keep and of blocks in use. */
  method Shrink(fs: FileSystem, inum: nat, size: nat)
    requires fs.Valid() && inum < fs.g.ninodes && fs.mem[inum].kind != 0 && size < fs.mem[inum].size <= MAXFILE * BSIZE
    modifies fs
    ensures fs.Shape() && fs.dinode == old(fs.dinode)
    ensures Cut(old(fs.disk), old(fs.mem), fs.disk, fs.mem, inum, BlockCount(size), BlockCount(old(fs.mem)[inum].size))
  {
    hide Own, Cut, Covered, Tight, AllTight, BlockOf, NoHoles, FreeClean;
    ghost var d0, m0, old0 := fs.disk, fs.mem, fs.mem[inum].size;
    var n, k := BlockCount(fs.mem[inum].size), BlockCount(size);
    Counts(size, old0);
    var nd, kd := Min(n, NDIRECT), Min(k, NDIRECT);
    CutNothing(fs.g, d0, m0, fs.owner, inum, k);
    var i := kd;
    while i < nd
      invariant kd <= i <= Max(kd, nd) && Cutting(fs, d0, m0, inum, k, if kd == k then i else k)
      invariant fs.dinode == old(fs.dinode) && fs.mem[inum].addrs[NDIRECT] == m0[inum].addrs[NDIRECT]
    {
      InUse(d0, m0, inum, i);
      CutDirect(fs, inum, i, d0, m0, k);
      i := i + 1;
    }
    if n > NDIRECT {
      var ni, ki := n - NDIRECT, if k > NDIRECT then k - NDIRECT else 0;
      var j := ki;
      while j < ni
        invariant ki <= j <= ni && Cutting(fs, d0, m0, inum, k, NDIRECT + j)
        invariant fs.dinode == old(fs.dinode) && fs.mem[inum].addrs[NDIRECT] == m0[inum].addrs[NDIRECT]
      {
        InUse(d0, m0, inum, NDIRECT + j);
        CutEntry(fs, inum, j, d0, m0, k);
        j := j + 1;
      }
      if ki == 0 {
        ghost var d1, m1 := fs.disk, fs.mem;
        NoEntriesLeft(d0, m0, d1, m1, inum, k, n) by { TightAt(d0, m0, inum); }
        InUse(d0, m0, inum, NDIRECT);
        IndirectThere(d0, m0[inum]);
        var ib := fs.mem[inum].addrs[NDIRECT];
        IndirectCut(fs.g, fs.disk, fs.mem, fs.owner, inum);
        var panicked := fs.Bfree(ib);
        fs.mem := fs.mem[inum := fs.mem[inum].(addrs := fs.mem[inum].addrs[NDIRECT := 0])];
        fs.owner := fs.owner - {ib};
        CutSame(d0, m0, d1, m1, fs.disk, fs.mem, inum, k, n);
      }
    }
  }

  lemma Counts(size: nat, old0: nat)
    requires size < old0 <= MAXFILE * BSIZE
    ensures BlockCount(size) <= BlockCount(old0) <= MAXFILE
    ensures forall bn: nat :: bn < BlockCount(size) <==> bn * BSIZE < size
    ensures forall bn: nat :: bn < BlockCount(old0) <==> bn * BSIZE < old0
  {
  }

  lemma InUse(d: Disk, m: seq<Inode>, n: nat, bn: nat)
    requires NoHoles(d, m) && n < |m| && m[n].size <= MAXFILE * BSIZE && bn < BlockCount(m[n].size)
    ensures bn < MAXFILE && BlockOf(d, m[n], bn) != 0
  {
  }

  lemma IndirectThere(d: Disk, ino: Inode)
    requires BlockOf(d, ino, NDIRECT) != 0
    ensures ino.addrs[NDIRECT] != 0
  {
  }

  lemma TightAt(d: Disk, m: seq<Inode>, n: nat)
    requires AllTight(d, m) && n < |m|
    ensures Tight(d, m[n], m[n].size)
  {
  }

  lemma NoEntriesLeft(d0: Disk, m0: seq<Inode>, d: Disk, m: seq<Inode>, inum: nat, k: nat, n: nat)
    requires Cut(d0, m0, d, m, inum, k, n) && k <= NDIRECT && n == BlockCount(m0[inum].size)
    requires Tight(d0, m0[inum], m0[inum].size)
    ensures inum < |m| && forall bn: nat :: NDIRECT <= bn < MAXFILE ==> BlockOf(d, m[inum], bn) == 0
  {
    hide BlockOf;
    forall bn: nat | NDIRECT <= bn < MAXFILE ensures BlockOf(d, m[inum], bn) == 0 {
      CutOne(d0, m0, d, m, inum, k, n, bn);
      if n <= bn { assert m0[inum].size <= bn * BSIZE; }
    }
  }

  lemma CutSame(d0: Disk, m0: seq<Inode>, d1: Disk, m1: seq<Inode>, d2: Disk, m2: seq<Inode>, inum: nat, lo: nat,
                hi: nat)
    requires Cut(d0, m0, d1, m1, inum, lo, hi) && Cut(d1, m1, d2, m2, inum, MAXFILE, MAXFILE)
    ensures Cut(d0, m0, d2, m2, inum, lo, hi)
  {
    hide BlockOf;
    forall k: nat, bn: nat | k < |m0| && bn < MAXFILE ensures CutAt(d0, m0, d2, m2, inum, lo, hi, k, bn) {
      assert CutAt(d0, m0, d1, m1, inum, lo, hi, k, bn) && CutAt(d1, m1, d2, m2, inum, MAXFILE, MAXFILE, k, bn);
    }
  }

  /** The longer file: the loop that takes block after block and fills it with zeroes is that of
      writei with zeroes for its data. */
  method Grow(fs: FileSystem, inum: nat, size: nat) returns (ok: bool)
    requires fs.Valid() && inum < fs.g.ninodes && fs.mem[inum].kind != 0
    requires fs.mem[inum].size <= size <= MAXFILE * BSIZE
    modifies fs
    ensures ok <==> Affords(fs.g, old(fs.disk), old(fs.mem)[inum], size)
    ensures !ok ==> Full(fs.g, fs.disk)
    ensures ok ==> fs.Shape() && fs.dinode == old(fs.dinode) && AddrsOnly(old(fs.mem), fs.mem, inum)
    ensures ok ==> KeepsBut(old(fs.disk), old(fs.mem), fs.disk, fs.mem, inum)
    ensures ok ==> old(fs.mem)[inum].size <= MAXFILE * BSIZE && Written(fs.disk, fs.mem[inum],
      Content(old(fs.disk), old(fs.mem)[inum]), old(fs.mem)[inum].size, Zeroes(size - old(fs.mem)[inum].size),
      size - old(fs.mem)[inum].size)
    ensures ok ==> OwnsMore(old(fs.owner), fs.owner, inum, size)
  {
    hide Own, KeepsBut, Full, BlockOf, ByteAt, Covered, NoHoles, AllTight, OwnsMore, FreeClean, Written, Budget,
      Pace, Content, Affords, Paid, Tight;
    FileCovered(fs.disk, fs.mem, inum);
    FileTight(fs.disk, fs.mem, inum);
    var n := size - fs.mem[inum].size;
    ghost var data, maps, k, f;
    var tot;
    ok, tot, data, maps, k, f := WriteBlocks(fs, inum, fs.mem[inum].size, Zeroes(n));
  }

  /** itruncate */
  method ITruncate(fs: FileSystem, inum: nat, size: nat) returns (r: Outcome)
    requires fs.Valid() && inum < fs.g.ninodes && fs.mem[inum].kind != 0
    modifies fs
    ensures r.Minus? <==> old(fs.mem)[inum].kind == T_DEVICE || size > MAXFILE * BSIZE
    ensures r.Minus? ==> fs.disk == old(fs.disk) && fs.mem == old(fs.mem) && fs.dinode == old(fs.dinode)
    ensures r.Fatal? <==> !r.Minus? && !Affords(fs.g, old(fs.disk), old(fs.mem)[inum], size)
    ensures r.Fatal? ==> Full(fs.g, fs.disk)
    ensures r.Resized? ==> fs.Valid() && KeepsBut(old(fs.disk), old(fs.mem), fs.disk, fs.mem, inum)
    ensures r.Resized? ==> fs.mem[inum] == old(fs.mem)[inum].(addrs := fs.mem[inum].addrs, size := size)
    ensures r.Resized? ==>
      && old(fs.mem)[inum].size <= MAXFILE * BSIZE && fs.mem[inum].size <= MAXFILE * BSIZE
      && Content(fs.disk, fs.mem[inum]) == Resized(Content(old(fs.disk), old(fs.mem)[inum]), size)
    ensures r.Resized? && old(fs.dinode) == old(fs.mem) ==> fs.dinode == fs.mem
  {
    hide Own, KeepsBut, Full, BlockOf, Covered, NoHoles, AllTight, OwnsMore, FreeClean, Written, Content, Cut, Tight,
      Resized, Zeroes, Affords;
    SmallerFits(fs.g, fs.disk, fs.mem[inum], size);
    if fs.mem[inum].kind == T_DEVICE { return Minus; }
    if size > MAXFILE * BSIZE { return Minus; }
    FileCovered(fs.disk, fs.mem, inum);
    ghost var d0, m0 := fs.disk, fs.mem;
    if size < fs.mem[inum].size {
      Shrink(fs, inum, size);
      ghost var m1 := fs.mem;
      CutOne(d0, m0, fs.disk, m1, inum, BlockCount(size), BlockCount(m0[inum].size), 0);
      fs.mem := fs.mem[inum := fs.mem[inum].(size := size)];
      ShrinkEnds(fs.g, d0, m0, fs.disk, m1, fs.mem, fs.owner, inum, size);
      fs.Iupdate(inum);
    } else {
      var ok := Grow(fs, inum, size);
      if !ok { return Fatal; }
      ghost var m1 := fs.mem;
      fs.mem := fs.mem[inum := fs.mem[inum].(size := size)];
      GrowEnds(fs.g, d0, m0, fs.disk, m1, fs.mem, fs.owner, inum, size);
      OwnsTight(fs.g, d0, m0, old(fs.owner), fs.disk, m1, fs.owner, inum, size, fs.mem);
      fs.Iupdate(inum);
    }
    r := Outcome.Resized;
  }

  lemma SmallerFits(g: Geo, d: Disk, ino: Inode, size: nat)
    ensures size <= ino.size ==> Affords(g, d, ino, size)
  {
    hide FreeCount, Takes;
  }

  lemma GrowEnds(g: Geo, d0: Disk, m0: seq<Inode>, d: Disk, m1: seq<Inode>, m: seq<Inode>, owner: map<nat, Slot>,
                 n: nat, size: nat)
    requires Own(g, d, m1, owner, {}) && KeepsBut(d0, m0, d, m1, n) && AddrsOnly(m0, m1, n)
    requires NoHoles(d0, m0) && FreeClean(m0) && m0[n].kind != 0 && m0[n].size <= size <= MAXFILE * BSIZE
    requires m == m1[n := m1[n].(size := size)]
    requires Written(d, m1[n], Content(d0, m0[n]), m0[n].size, Zeroes(size - m0[n].size), size - m0[n].size)
    ensures Own(g, d, m, owner, {}) && KeepsBut(d0, m0, d, m, n) && NoHoles(d, m) && FreeClean(m)
    ensures Content(d, m[n]) == Resized(Content(d0, m0[n]), size)
  {
    hide Own, NoHoles, BlockOf, ByteAt, Written, KeepsBut, FreeClean, Zeroes;
    var c, z := Content(d0, m0[n]), Zeroes(size - m0[n].size);
    ContentSize(d0, m0[n]);
    hide Content;
    WriteEnds(g, d0, m0, d, m1, m, owner, n, c, |c|, z);
    assert Splice(c, |c|, z) == c + z by { assert c[..|c|] == c; }
  }

  lemma ShrinkEnds(g: Geo, d0: Disk, m0: seq<Inode>, d: Disk, m1: seq<Inode>, m: seq<Inode>, owner: map<nat, Slot>,
                   n: nat, size: nat)
    requires Own(g, d, m1, owner, {}) && n < |m0| && size < m0[n].size <= MAXFILE * BSIZE
    requires Cut(d0, m0, d, m1, n, BlockCount(size), BlockCount(m0[n].size))
    requires NoHoles(d0, m0) && FreeClean(m0) && m0[n].kind != 0 && AllTight(d0, m0)
    requires m == m1[n := m1[n].(size := size)]
    ensures Own(g, d, m, owner, {}) && KeepsBut(d0, m0, d, m, n) && NoHoles(d, m) && FreeClean(m)
    ensures Content(d, m[n]) == Resized(Content(d0, m0[n]), size) && AllTight(d, m)
  {
    hide Own, BlockOf, ByteAt;
    var lo, hi := BlockCount(size), BlockCount(m0[n].size);
    Counts(size, m0[n].size);
    SameAddrs(g, d, m1, m, owner, n);
    assert FreeClean(m);
    CutKeeps(d0, m0, d, m1, m, n, lo, hi);
    forall bn: nat | bn < MAXFILE ensures BlockOf(d, m[n], bn) == if lo <= bn < hi then 0 else BlockOf(d0, m0[n], bn) {
      CutOne(d0, m0, d, m1, n, lo, hi, bn);
      AddrsIs(d, m1[n], m[n], bn);
    }
    assert Covered(d0, m0[n], m0[n].size);
    assert Covered(d, m[n], size);
    ButHoles(d0, m0, d, m, n);
    CutTight(d0, m0, d, m1, m, n, lo, hi);
    CutBytes(d0, m0, d, m1, m, n, size);
  }

  lemma CutTight(d0: Disk, m0: seq<Inode>, d: Disk, m1: seq<Inode>, m: seq<Inode>, n: nat, lo: nat, hi: nat)
    requires Cut(d0, m0, d, m1, n, lo, hi) && AllTight(d0, m0) && |m| == |m1| && m == m1[n := m1[n].(size := m[n].size)]
    requires forall bn: nat :: bn < lo <==> bn * BSIZE < m[n].size
    requires forall bn: nat :: bn < hi <==> bn * BSIZE < m0[n].size
    ensures AllTight(d, m)
  {
    hide BlockOf;
    forall k | 0 <= k < |m| ensures Tight(d, m[k], m[k].size) {
      assert Tight(d0, m0[k], m0[k].size);
      forall bn: nat | bn < MAXFILE && m[k].size <= bn * BSIZE ensures BlockOf(d, m[k], bn) == 0 {
        AddrsIs(d, m1[k], m[k], bn);
        assert CutAt(d0, m0, d, m1, n, lo, hi, k, bn);
      }
    }
  }

  lemma CutKeeps(d0: Disk, m0: seq<Inode>, d: Disk, m1: seq<Inode>, m: seq<Inode>, n: nat, lo: nat, hi: nat)
    requires Cut(d0, m0, d, m1, n, lo, hi) && |m| == |m1| && forall k :: 0 <= k < |m| && k != n ==> m[k] == m1[k]
    ensures KeepsBut(d0, m0, d, m, n)
  {
    hide BlockOf;
    forall k, bn | 0 <= k < |m0| && k != n && 0 <= bn < MAXFILE && BlockOf(d0, m0[k], bn) != 0
      ensures BlockOf(d, m0[k], bn) == BlockOf(d0, m0[k], bn)
      ensures BlockOf(d0, m0[k], bn) < |d0| ==> d[BlockOf(d0, m0[k], bn)] == d0[BlockOf(d0, m0[k], bn)]
    {
      assert CutAt(d0, m0, d, m1, n, lo, hi, k, bn) && m1[k] == m0[k];
    }
  }

  lemma CutBytes(d0: Disk, m0: seq<Inode>, d: Disk, m1: seq<Inode>, m: seq<Inode>, n: nat, size: nat)
    requires n < |m0| && size < m0[n].size <= MAXFILE * BSIZE && Covered(d0, m0[n], m0[n].size)
    requires Cut(d0, m0, d, m1, n, BlockCount(size), BlockCount(m0[n].size)) && m == m1[n := m1[n].(size := size)]
    ensures Content(d, m[n]) == Resized(Content(d0, m0[n]), size)
  {
    hide BlockOf;
    Counts(size, m0[n].size);
    var c := Content(d0, m0[n]);
    forall p | 0 <= p < size ensures ByteAt(d, m[n], p) == ByteAt(d0, m0[n], p) {
      var bn := p / BSIZE;
      assert bn * BSIZE < size && bn < BlockCount(size);
      assert CutAt(d0, m0, d, m1, n, BlockCount(size), BlockCount(m0[n].size), n, bn);
      AddrsIs(d, m1[n], m[n], bn);
    }
    assert c[..size] == Content(d, m[n]);
  }
}
