/** Two runs of mkfs, as calls of the image's methods: one that ends with a hole in the root
    directory, and one in which the check on the space left passes with too little of it. */
module MkfsRuns {
  import opened Blocks
  import opened Inodes
  import opened InodeLayer
  import opened FileIO
  import opened Mkfs

  const T_DIR := 1
  const T_FILE := 2
  const DIRENT := 16

  /** The shipped geometry: 2000 blocks, 200 inodes, 30 log blocks. */
  const SHIPPED := Layout(2000, 200, 30)

  type Dirent = e: seq<Byte> | |e| == DIRENT witness seq(DIRENT, _ => 0)

  /** The root directory's entries are in its first block. */
  ghost predicate RootOf(im: Image, entries: nat)
    reads im
  {
    && im.Valid() && ROOTINO < im.freeinode && ROOTINO < |im.mem| && im.mem[ROOTINO].kind != 0
    && im.mem[ROOTINO].size == entries * DIRENT
  }

  /** One more entry in the root directory's first block, which is there already. */
  method RootEntry(im: Image, e: Dirent, ghost n: nat)
    requires RootOf(im, n) && 0 < n && (n + 1) * DIRENT <= BSIZE
    modifies im
    ensures RootOf(im, n + 1) && im.freeblock == old(im.freeblock) && im.freeinode == old(im.freeinode)
    ensures forall k :: 0 <= k < |im.mem| && k != ROOTINO ==> im.mem[k] == old(im.mem)[k]
    ensures |im.mem| == |old(im.mem)|
  {
    hide Own, Filled, NoHoles, Tight, FreeClean, Content, BlockOf, FreeCount;
    OneBlock(im.g, im.full, im.mem[ROOTINO], n * DIRENT, DIRENT);
    var ok := im.IAppend(ROOTINO, e);
    OneBlock(im.g, im.full, im.mem[ROOTINO], (n + 1) * DIRENT, 0);
  }

  lemma OneBlock(g: Geo, d: Disk, ino: Inode, size: nat, more: nat)
    requires ino.size == size && 0 < size && size + more <= BSIZE
    ensures Affords(g, d, ino, size + more)
    ensures Takes(ino, size + more) == Takes(ino, size)
  {
    hide FreeCount;
  }

  /** How many blocks a file of this size takes. */
  function FileBlocks(size: nat): nat { BlockCount(size) + if size > NDIRECT * BSIZE then 1 else 0 }

  /** The inode has no indirect block yet, or has it for what it holds. */
  ghost predicate Grows(ino: Inode) { forall size: nat :: ino.size <= size ==> Takes(ino, size) == FileBlocks(size) }

  /** main up to the packing of the files: the root directory with its first two entries. */
  method Start(dot: Dirent, dotdot: Dirent) returns (im: Image)
    ensures fresh(im) && im.g == SHIPPED && RootOf(im, 2) && |im.mem| == 200
    ensures im.freeinode == 2 && SHIPPED.nmeta == 134 && im.freeblock == 135
  {
    assert SHIPPED == Geo(2000, 32, 200, 133, 134) && ValidGeo(SHIPPED);
    hide Own, Filled, NoHoles, Tight, FreeClean, Content, BlockOf, FreeCount, Takes, FileBlocks, Grows;
    im := new Image(SHIPPED);
    var root := im.IAlloc(T_DIR);
    NewFile(im.mem[root]);
    GrowsTo(im.mem[root], 0, DIRENT);
    ImageFree(im);
    ghost var before := im.mem[root];
    var ok := im.IAppend(root, dot);
    StillGrows(before, im.mem[root]);
    GrowsTo(im.mem[root], DIRENT, DIRENT);
    FewBlocks();
    RootEntry(im, dotdot, 1);
  }

  lemma FewBlocks()
    ensures FileBlocks(0) == 0 && FileBlocks(DIRENT) == 1
  {
  }

  lemma NewFile(ino: Inode)
    requires ino.addrs[NDIRECT] == 0
    ensures Grows(ino)
  {
  }

  lemma GrowsTo(ino: Inode, size: nat, size': nat)
    requires Grows(ino) && ino.size <= size <= size'
    ensures Takes(ino, size) == FileBlocks(size) <= Takes(ino, size') == FileBlocks(size')
  {
    hide Takes;
  }

  lemma StillGrows(ino: Inode, ino': Inode)
    requires Grows(ino) && ino.size <= ino'.size
    requires forall size: nat :: ino'.size <= size ==> Takes(ino', size) == Takes(ino, size)
    ensures Grows(ino')
  {
    hide Takes, FileBlocks;
  }

  lemma ImageFree(im: Image)
    requires im.Valid()
    ensures FreeCount(im.g, im.full) == im.g.size - im.freeblock
  {
    hide Own, NoHoles, FreeClean, Tight, FreeCount;
    FilledFree(im.g, im.disk, im.full, im.freeblock);
  }

  /** main's loop over the files: one of so many whole blocks is packed. */
  method Pack(im: Image, blocks: nat, buf: Block, e: Dirent, ghost n: nat)
    requires RootOf(im, n) && 0 < n && (n + 1) * DIRENT <= BSIZE && im.freeinode < |im.mem| && blocks <= MAXFILE
    requires im.freeblock + FileBlocks(blocks * BSIZE) <= im.g.size
    modifies im
    ensures RootOf(im, n + 1) && im.freeinode == old(im.freeinode) + 1 && |im.mem| == |old(im.mem)|
    ensures im.freeblock == old(im.freeblock) + FileBlocks(blocks * BSIZE)
    ensures im.mem[old(im.freeinode)].size == blocks * BSIZE
  {
    hide Own, Filled, NoHoles, Tight, FreeClean, Content, BlockOf, FreeCount, Takes, FileBlocks, Grows;
    ghost var f0 := im.freeblock;
    var inum := im.IAlloc(T_FILE);
    RootEntry(im, e, n);
    NewFile(im.mem[inum]);
    FewBlocks();
    var i := 0;
    while i < blocks
      invariant i <= blocks && RootOf(im, n + 1) && im.freeinode == inum + 1 && |im.mem| == |old(im.mem)|
      invariant im.mem[inum].size == i * BSIZE && im.mem[inum].kind != 0 && Grows(im.mem[inum])
      invariant im.freeblock == f0 + FileBlocks(i * BSIZE)
    {
      ghost var ino := im.mem[inum];
      GrowsTo(ino, i * BSIZE, (i + 1) * BSIZE);
      GrowsTo(ino, (i + 1) * BSIZE, blocks * BSIZE);
      ImageFree(im);
      var ok := im.IAppend(inum, buf);
      StillGrows(ino, im.mem[inum]);
      GrowsTo(im.mem[inum], (i + 1) * BSIZE, (i + 1) * BSIZE);
      i := i + 1;
    }
  }

  /** Thirty empty files make the root directory exactly one block long, and its size is then
      rounded up to two: the second block is a hole. */
  method RootWithHole(dot: Dirent, dotdot: Dirent, e: Dirent, buf: Block) returns (im: Image)
    ensures im.g == SHIPPED && |im.disk| == im.g.size && !NoHoles(im.disk, im.mem)
  {
    im := Start(dot, dotdot);
    hide NoHoles, RootOf;
    FewBlocks();
    var i := 0;
    while i < 30
      invariant i <= 30 && RootOf(im, i + 2) && im.freeinode == i + 2 && |im.mem| == 200
      invariant im.g == SHIPPED && im.freeblock == 135
    {
      Pack(im, 0, buf, e, i + 2);
      i := i + 1;
    }
    RootFull(im);
    var ok := im.Finish();
  }

  lemma RootFull(im: Image)
    requires RootOf(im, 32)
    ensures im.Valid() && ROOTINO < |im.mem| && im.mem[ROOTINO].kind != 0 && im.mem[ROOTINO].size % BSIZE == 0
  {
    hide NoHoles, Own, Filled, FreeClean, Tight;
  }

  /** Seven files of the largest size and one of 184 blocks leave 371 blocks free, one too few for
      two such files, and main's check lets the image pass. */
  method MarginTooSmall(dot: Dirent, dotdot: Dirent, e: Dirent, buf: Block) returns (im: Image, passed: bool)
    ensures im.g == SHIPPED && im.Valid() && passed && FreeCount(im.g, im.full) == 371 < 2 * MAXFILE
  {
    im := Start(dot, dotdot);
    hide RootOf, FreeCount, Own, NoHoles, FreeClean, Tight, Filled;
    var before := im.freeblock;
    LargeFiles();
    var i := 0;
    while i < 7
      invariant i <= 7 && RootOf(im, i + 2) && im.freeinode == i + 2 && |im.mem| == 200
      invariant im.g == SHIPPED && im.freeblock == 135 + 187 * i
    {
      Pack(im, MAXFILE, buf, e, i + 2);
      i := i + 1;
    }
    Pack(im, 184, buf, e, 9);
    RootValid(im, 10);
    ImageFree(im);
    passed := im.Margin(before);
  }

  lemma RootValid(im: Image, n: nat)
    requires RootOf(im, n)
    ensures im.Valid()
  {
  }

  lemma LargeFiles()
    ensures FileBlocks(MAXFILE * BSIZE) == 187 && FileBlocks(184 * BSIZE) == 185
  {
  }
}
