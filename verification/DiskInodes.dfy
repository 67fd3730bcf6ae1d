/** Inodes in the blocks of the disk (struct dinode of fs.h, iupdate and ilock of fs.c): what is
    written is read back, and the other inodes of the block stay as they are. */
module DiskInodes {
  import opened Blocks
  import opened Inodes
  import opened InodeLayer
  import opened FileIO

  const HALVES := BSIZE / 2

  /** A 16-bit field, little-endian. */
  function HalfAt(b: Block, k: nat): (h: nat)
    requires k < HALVES
    ensures h < 0x1_0000
  {
    var b0: int, b1: int := b[2 * k], b[2 * k + 1];
    b0 + 0x100 * b1
  }

  function SetHalf(b: Block, k: nat, v: nat): (r: Block)
    requires k < HALVES && v < 0x1_0000
  {
    b[2 * k := v % 0x100][2 * k + 1 := v / 0x100]
  }

  lemma SetHalfAt(b: Block, k: nat, v: nat, j: nat)
    requires k < HALVES && v < 0x1_0000 && j < HALVES
    ensures HalfAt(SetHalf(b, k, v), j) == if j == k then v else HalfAt(b, j)
  {
  }

  lemma HalfInWord(b: Block, k: nat, v: nat, w: nat)
    requires k < HALVES && v < 0x1_0000 && w < WORDS && w != k / 2
    ensures WordAt(SetHalf(b, k, v), w) == WordAt(b, w)
  {
  }

  lemma WordOnHalf(b: Block, w: nat, v: nat, k: nat)
    requires w < WORDS && v < UINT && k < HALVES && w != k / 2
    ensures HalfAt(SetWord(b, w, v), k) == HalfAt(b, k)
  {
  }

  // ---- one inode -----------------------------------------------------------------------------

  /** The fields have their widths. */
  ghost predicate InodeFits(ino: Inode) {
    && ino.kind < 0x1_0000 && ino.nlink < 0x1_0000 && ino.size < UINT
    && forall i :: 0 <= i <= NDIRECT ==> ino.addrs[i] < UINT
  }

  /** ilock's reading of the i-th inode of a block: 64 words each, type and nlink the first and the
      fourth half-word, size the fifth word, and the addresses after it. */
  function InodeAt(b: Block, i: nat): Inode
    requires i < IPB
  {
    Inode(HalfAt(b, 128 * i), HalfAt(b, 128 * i + 3), WordAt(b, 64 * i + 4), AddrsAt(b, i))
  }

  function AddrsAt(b: Block, i: nat): (a: Addrs)
    requires i < IPB
    ensures forall j :: 0 <= j <= NDIRECT ==> a[j] == WordAt(b, 64 * i + 5 + j)
  {
    var a: seq<nat> := seq<nat>(NDIRECT + 1, (j: nat) requires j <= NDIRECT => WordAt(b, 64 * i + 5 + j));
    a
  }

  /** The first n addresses copied into the inode. */
  function SetAddrs(b: Block, i: nat, a: Addrs, n: nat): Block
    requires i < IPB && n <= NDIRECT + 1 && forall j :: 0 <= j <= NDIRECT ==> a[j] < UINT
  {
    if n == 0 then b else SetWord(SetAddrs(b, i, a, n - 1), 64 * i + 5 + n - 1, a[n - 1])
  }

  /** iupdate's writing of it. */
  function PutInode(b: Block, i: nat, ino: Inode): Block
    requires i < IPB && InodeFits(ino)
  {
    var h := SetHalf(SetHalf(b, 128 * i, ino.kind), 128 * i + 3, ino.nlink);
    SetAddrs(SetWord(h, 64 * i + 4, ino.size), i, ino.addrs, NDIRECT + 1)
  }

  lemma {:induction false} SetAddrsAt(b: Block, i: nat, a: Addrs, n: nat, w: nat, k: nat)
    requires i < IPB && n <= NDIRECT + 1 && (forall j :: 0 <= j <= NDIRECT ==> a[j] < UINT) && w < WORDS && k < HALVES
    ensures WordAt(SetAddrs(b, i, a, n), w) ==
      if 64 * i + 5 <= w < 64 * i + 5 + n then a[w - (64 * i + 5)] else WordAt(b, w)
    ensures !(64 * i + 5 <= k / 2 < 64 * i + 5 + n) ==> HalfAt(SetAddrs(b, i, a, n), k) == HalfAt(b, k)
  {
    hide WordAt, SetWord, HalfAt;
    if n > 0 {
      SetAddrsAt(b, i, a, n - 1, w, k);
      SetWordAt(SetAddrs(b, i, a, n - 1), 64 * i + 5 + n - 1, a[n - 1], w);
      if k / 2 != 64 * i + 5 + n - 1 { WordOnHalf(SetAddrs(b, i, a, n - 1), 64 * i + 5 + n - 1, a[n - 1], k); }
    }
  }

  /** What iupdate writes is what ilock reads, and the block's other inode is as it was. */
  lemma PutInodeAt(b: Block, i: nat, ino: Inode, k: nat)
    requires i < IPB && k < IPB && InodeFits(ino)
    ensures InodeAt(PutInode(b, i, ino), k) == if k == i then ino else InodeAt(b, k)
  {
    hide WordAt, SetWord, HalfAt, SetHalf, SetAddrs, PutInode, AddrsAt;
    var r := PutInode(b, i, ino);
    PutHalf(b, i, ino, k, 0);
    PutHalf(b, i, ino, k, 3);
    PutWord(b, i, ino, k, 4);
    var a := if k == i then ino.addrs else AddrsAt(b, k);
    forall j | 0 <= j <= NDIRECT ensures AddrsAt(r, k)[j] == a[j] { PutWord(b, i, ino, k, 5 + j); }
    assert AddrsAt(r, k) == a;
  }

  lemma PutWord(b: Block, i: nat, ino: Inode, k: nat, w: nat)
    requires i < IPB && k < IPB && 4 <= w < 64 && InodeFits(ino)
    ensures WordAt(PutInode(b, i, ino), 64 * k + w) ==
      if k != i then WordAt(b, 64 * k + w) else if w == 4 then ino.size else ino.addrs[w - 5]
  {
    hide WordAt, SetWord, SetHalf, SetAddrs;
    var x := 64 * k + w;
    var h1 := SetHalf(b, 128 * i, ino.kind);
    var h := SetHalf(h1, 128 * i + 3, ino.nlink);
    HalfInWord(b, 128 * i, ino.kind, x);
    HalfInWord(h1, 128 * i + 3, ino.nlink, x);
    SetWordAt(h, 64 * i + 4, ino.size, x);
    SetAddrsAt(SetWord(h, 64 * i + 4, ino.size), i, ino.addrs, NDIRECT + 1, x, 0);
  }

  lemma PutHalf(b: Block, i: nat, ino: Inode, k: nat, f: nat)
    requires i < IPB && k < IPB && (f == 0 || f == 3) && InodeFits(ino)
    ensures HalfAt(PutInode(b, i, ino), 128 * k + f) ==
      if k != i then HalfAt(b, 128 * k + f) else if f == 0 then ino.kind else ino.nlink
  {
    hide HalfAt, SetWord, SetHalf, SetAddrs;
    var x := 128 * k + f;
    var h1 := SetHalf(b, 128 * i, ino.kind);
    var h := SetHalf(h1, 128 * i + 3, ino.nlink);
    SetHalfAt(b, 128 * i, ino.kind, x);
    SetHalfAt(h1, 128 * i + 3, ino.nlink, x);
    WordOnHalf(h, 64 * i + 4, ino.size, x);
    SetAddrsAt(SetWord(h, 64 * i + 4, ino.size), i, ino.addrs, NDIRECT + 1, 0, x);
  }

  // ---- all inodes ----------------------------------------------------------------------------

  /** The inodes of the disk. */
  function InodesOn(g: Geo, d: Disk): (m: seq<Inode>)
    requires ValidGeo(g) && |d| == g.size
    ensures |m| == g.ninodes
  {
    seq(g.ninodes, n requires 0 <= n < g.ninodes => InodeAt(d[IBLOCK(g, n)], n % IPB))
  }

  /** iupdate on the disk: one inode changes. */
  lemma UpdateOn(g: Geo, d: Disk, n: nat, ino: Inode)
    requires ValidGeo(g) && |d| == g.size && n < g.ninodes && InodeFits(ino)
    ensures IBLOCK(g, n) < g.bmapstart < g.size
    ensures var b := IBLOCK(g, n); InodesOn(g, d[b := PutInode(d[b], n % IPB, ino)]) == InodesOn(g, d)[n := ino]
  {
    hide InodeAt, PutInode, InodeFits;
    var b := IBLOCK(g, n);
    var d' := d[b := PutInode(d[b], n % IPB, ino)];
    var m, m' := InodesOn(g, d)[n := ino], InodesOn(g, d');
    forall k: nat | k < g.ninodes ensures m'[k] == m[k] { UpdateAt(g, d, n, ino, k); }
    assert m' == m;
  }

  lemma UpdateAt(g: Geo, d: Disk, n: nat, ino: Inode, k: nat)
    requires ValidGeo(g) && |d| == g.size && n < g.ninodes && InodeFits(ino) && k < g.ninodes
    ensures IBLOCK(g, n) < g.size && IBLOCK(g, k) < g.size
    ensures var b := IBLOCK(g, n);
      InodeAt(d[b := PutInode(d[b], n % IPB, ino)][IBLOCK(g, k)], k % IPB) ==
        if k == n then ino else InodeAt(d[IBLOCK(g, k)], k % IPB)
  {
    hide InodeAt, PutInode, InodeFits;
    if IBLOCK(g, k) == IBLOCK(g, n) {
      PutInodeAt(d[IBLOCK(g, n)], n % IPB, ino, k % IPB);
      OneInode(g, k, n);
    }
  }

  lemma OneInode(g: Geo, k: nat, n: nat)
    requires IBLOCK(g, k) == IBLOCK(g, n)
    ensures k % IPB == n % IPB <==> k == n
  {
  }
}
