/** The inode layer of fs.c: block allocation, addressing, truncation, reading and writing,
    each as code over the disk and the inodes, proved against files as byte sequences. */
module InodeLayer {
  import opened Blocks
  import opened Inodes

  datatype ReadResult = ReadError | Data(bytes: seq<Byte>)
  /** Panic is "balloc: out of blocks", which stops the machine. */
  datatype WriteResult = WriteError | Panic | Wrote(n: nat)

  /** Like Keeps, for every inode but x; those are unchanged in memory too. */
  ghost predicate KeepsBut(d: Disk, mem: seq<Inode>, d': Disk, mem': seq<Inode>, x: nat) {
    && |d'| == |d| && |mem'| == |mem|
    && (forall n :: 0 <= n < |mem| && n != x ==> mem'[n] == mem[n])
    && forall n, bn :: 0 <= n < |mem| && n != x && 0 <= bn < MAXFILE && BlockOf(d, mem[n], bn) != 0 ==>
         && BlockOf(d', mem[n], bn) == BlockOf(d, mem[n], bn)
         && (BlockOf(d, mem[n], bn) < |d| ==> d'[BlockOf(d, mem[n], bn)] == d[BlockOf(d, mem[n], bn)])
  }

  /** Only the addresses of inode x may differ. */
  ghost predicate AddrsOnly(mem: seq<Inode>, mem': seq<Inode>, x: nat) {
    && |mem'| == |mem| && x < |mem| && mem' == mem[x := mem[x].(addrs := mem'[x].addrs)]
  }

  /** A free inode names no blocks. */
  ghost predicate FreeClean(mem: seq<Inode>) {
    forall n, i :: 0 <= n < |mem| && mem[n].kind == 0 && 0 <= i <= NDIRECT ==> mem[n].addrs[i] == 0
  }

  /** No free block is left. */
  ghost predicate Full(g: Geo, d: Disk) {
    ValidGeo(g) && |d| == g.size && forall b: nat :: b < g.size ==> Used(g, d, b)
  }

  /** The indirect block, if there is one. */
  function Ind(ino: Inode): set<nat> {
    if ino.addrs[NDIRECT] == 0 then {} else {ino.addrs[NDIRECT]}
  }

  /** What one bmap gives to log_write: the block, the indirect block, and bitmap blocks, of
      which two only when the indirect block is new. */
  ghost predicate Logged(g: Geo, dirty0: set<nat>, dirty: set<nat>, ino0: Inode, ino: Inode,
                         addr: nat, maps: set<nat>) {
    && dirty <= dirty0 + maps + {addr} + Ind(ino) && Bitmaps(g, maps)
    && |maps| <= (if ino0.addrs[NDIRECT] == 0 && ino.addrs[NDIRECT] != 0 then 2 else 1)
    && (ino0.addrs[NDIRECT] != 0 ==> ino.addrs[NDIRECT] == ino0.addrs[NDIRECT])
  }

  /** Every block that has changed has been given to log_write, with those that had been before;
      all of them are inode, bitmap or data blocks. */
  ghost predicate AllLogged(g: Geo, d: Disk, dirty: set<nat>, d': Disk, dirty': set<nat>) {
    && dirty <= dirty' && |d'| == |d|
    && (forall b :: b in dirty' ==> b in dirty || g.inodestart <= b < g.size)
    && forall b: nat :: b < |d| && d'[b] != d[b] ==> b in dirty'
  }

  /** And every inode block in which an inode has changed. */
  ghost predicate InodesLogged(g: Geo, di: seq<Inode>, di': seq<Inode>, dirty: set<nat>) {
    |di'| == |di| && forall n: nat :: n < |di| && di'[n] != di[n] ==> IBLOCK(g, n) in dirty
  }

  /** How many blocks bmap has to take for block bn: the block, and the indirect block. */
  ghost function Lack(d: Disk, ino: Inode, bn: nat): nat
    requires bn < MAXFILE
  {
    Missing(d, ino, bn) + if bn >= NDIRECT && ino.addrs[NDIRECT] == 0 then 1 else 0
  }

  ghost function Missing(d: Disk, ino: Inode, bn: nat): nat
    requires bn < MAXFILE
  {
    if BlockOf(d, ino, bn) == 0 then 1 else 0
  }

  class FileSystem {
    const g: Geo
    var disk: Disk
    /** The inodes in memory (struct inode) and on disk (struct dinode). */
    var mem: seq<Inode>
    var dinode: seq<Inode>
    ghost var owner: map<nat, Slot>
    /** The blocks given to log_write. */
    ghost var dirty: set<nat>

    ghost predicate Shape()
      reads this
    {
      ValidGeo(g) && |disk| == g.size && |mem| == |dinode| == g.ninodes && Own(g, disk, mem, owner, {})
    }

    ghost predicate Valid()
      reads this
    {
      Shape() && NoHoles(disk, mem) && AllTight(disk, mem) && FreeClean(mem)
    }

    /** Allocate a zeroed block: the first whose bit is clear. 0 is the panic. */
    method Balloc() returns (r: nat)
      requires ValidGeo(g) && |disk| == g.size
      requires forall b: nat :: b < g.nmeta ==> Used(g, disk, b)
      modifies this`disk, this`dirty
      ensures r == 0 <==> FreeCount(g, old(disk)) == 0
      ensures FreeCount(g, disk) == FreeCount(g, old(disk)) - if r == 0 then 0 else 1
      ensures r == 0 ==> disk == old(disk) && dirty == old(dirty) && Full(g, disk)
      ensures r != 0 ==> r < g.size && !Used(g, old(disk), r) && disk == AllocBlock(g, old(disk), r)
      ensures r != 0 ==> dirty == old(dirty) + {BBLOCK(g, r), r}
      ensures r != 0 ==> forall b: nat :: b < r ==> Used(g, old(disk), b)
    {
      hide BitAt, SetBit, FreeCount;
      NoneFree(g, disk);
      var b := 0;
      while b < g.size
        invariant b % BPB == 0 && disk == old(disk) && dirty == old(dirty)
        invariant forall c: nat :: c < b && c < g.size ==> Used(g, disk, c)
      {
        BitmapBelow(g, b);
        var bp := disk[BBLOCK(g, b)];
        var bi := 0;
        while bi < BPB && b + bi < g.size
          invariant bi <= BPB && disk == old(disk) && dirty == old(dirty)
          invariant forall c: nat :: c < b + bi && c < g.size ==> Used(g, disk, c)
        {
          SameGroup(g, b, bi);
          if !BitAt(bp, bi) {
            assert !Used(g, disk, b + bi) && b + bi != 0;
            AllocFree(g, disk, b + bi);
            disk := disk[BBLOCK(g, b) := SetBit(bp, bi)];
            BitmapBelow(g, b + bi);
            disk := disk[b + bi := ZeroBlock()];
            dirty := dirty + {BBLOCK(g, b + bi), b + bi};
            return b + bi;
          }
          bi := bi + 1;
        }
        b := b + BPB;
      }
      return 0;
    }

    /** Free block b; the panic is "freeing free block". */
    method Bfree(b: nat) returns (panicked: bool)
      requires ValidGeo(g) && |disk| == g.size && b < g.size
      modifies this`disk, this`dirty
      ensures panicked <==> !Used(g, old(disk), b)
      ensures if panicked then disk == old(disk) && dirty == old(dirty)
              else disk == FreeBlock(g, old(disk), b) && dirty == old(dirty) + {BBLOCK(g, b)}
    {
      BitmapBelow(g, b);
      var bp := disk[BBLOCK(g, b)];
      if !BitAt(bp, b % BPB) { return true; }
      disk := disk[BBLOCK(g, b) := ClearBit(bp, b % BPB)];
      dirty := dirty + {BBLOCK(g, b)};
      return false;
    }

    /** ip->addrs[i], allocated if it is not there yet; 0 is the panic. */
    method PtrBlock(inum: nat, i: nat) returns (addr: nat, ghost maps: set<nat>)
      requires Shape() && inum < g.ninodes && i <= NDIRECT
      modifies this`disk, this`mem, this`owner, this`dirty
      ensures Shape() && Keeps(old(disk), old(mem), disk, mem) && AddrsOnly(old(mem), mem, inum)
      ensures old(mem)[inum].addrs[i] != 0 ==>
        disk == old(disk) && mem == old(mem) && dirty == old(dirty) && maps == {}
      ensures addr != 0 ==> mem[inum].addrs == old(mem)[inum].addrs[i := addr]
      ensures addr == 0 ==> mem == old(mem) && Full(g, disk)
      ensures dirty <= old(dirty) + maps + {addr} && Bitmaps(g, maps) && |maps| <= 1
      ensures AllLogged(g, old(disk), old(dirty), disk, dirty)
      ensures addr == mem[inum].addrs[i]
      ensures addr == 0 <==> old(mem)[inum].addrs[i] == 0 && FreeCount(g, old(disk)) == 0
      ensures FreeCount(g, disk) ==
        FreeCount(g, old(disk)) - if addr != 0 && old(mem)[inum].addrs[i] == 0 then 1 else 0
      ensures addr != 0 && old(mem)[inum].addrs[i] == 0 ==>
        addr !in old(owner) && addr < g.size && disk[addr] == ZeroBlock()
      ensures owner ==
        if addr != 0 && old(mem)[inum].addrs[i] == 0 then old(owner)[addr := Ptr(inum, i)] else old(owner)
    {
      hide Own, Keeps, AllocBlock, Used, Full, FreeCount, AllLogged;
      SelfKeeps(disk, mem);
      NoneLogged(g, disk, dirty);
      maps := {};
      addr := mem[inum].addrs[i];
      if addr == 0 {
        MetaUsed(g, disk, mem, owner);
        addr := Balloc();
        if addr != 0 {
          AllocPtr(g, old(disk), mem, owner, addr, inum, i);
          mem := mem[inum := mem[inum].(addrs := mem[inum].addrs[i := addr])];
          owner := owner[addr := Ptr(inum, i)];
          maps := {BBLOCK(g, addr)};
          AllocFacts(g, old(disk), addr);
          AllocLogged(g, old(disk), old(dirty), addr);
        }
      }
    }

    /** bmap: the address of block bn of inode inum, allocated if necessary; 0 is a panic. */
    method Bmap(inum: nat, bn: nat) returns (addr: nat, ghost maps: set<nat>)
      requires Shape() && inum < g.ninodes
      modifies this`disk, this`mem, this`owner, this`dirty
      ensures Shape() && Keeps(old(disk), old(mem), disk, mem) && AddrsOnly(old(mem), mem, inum)
      ensures bn >= MAXFILE ==> addr == 0 && disk == old(disk) && mem == old(mem)
      ensures bn < MAXFILE ==> if addr == 0 then Full(g, disk) else BlockOf(disk, mem[inum], bn) == addr
      ensures bn < MAXFILE ==> (addr == 0 <==> FreeCount(g, old(disk)) < Lack(old(disk), old(mem)[inum], bn))
      ensures bn < MAXFILE && addr != 0 ==>
        FreeCount(g, disk) == FreeCount(g, old(disk)) - Lack(old(disk), old(mem)[inum], bn)
      ensures bn < MAXFILE && BlockOf(old(disk), old(mem)[inum], bn) != 0 ==>
        disk == old(disk) && mem == old(mem) && dirty == old(dirty) && maps == {} && addr != 0
      ensures Logged(g, old(dirty), dirty, old(mem)[inum], mem[inum], addr, maps)
      ensures AllLogged(g, old(disk), old(dirty), disk, dirty)
      ensures OwnsMore(old(owner), owner, inum, bn * BSIZE + 1)
    {
      hide Own, Keeps, Bitmaps, Full, OwnsMore, FreeCount, AllLogged;
      NoneLogged(g, disk, dirty);
      maps := {};
      addr := 0;
      OwnsSame(owner, inum, bn * BSIZE + 1);
      if bn < NDIRECT {
        ghost var o := owner;
        addr, maps := PtrBlock(inum, bn);
        OwnsOne(o, addr, Ptr(inum, bn), bn * BSIZE + 1);
      } else if bn < MAXFILE {
        addr, maps := BmapIndirect(inum, bn - NDIRECT);
      } else {
        SelfKeeps(disk, mem);
        NoMaps(g);
      }
    }

    method BmapIndirect(inum: nat, j: nat) returns (addr: nat, ghost maps: set<nat>)
      requires Shape() && inum < g.ninodes && j < NINDIRECT
      modifies this`disk, this`mem, this`owner, this`dirty
      ensures Shape() && Keeps(old(disk), old(mem), disk, mem) && AddrsOnly(old(mem), mem, inum)
      ensures if addr == 0 then Full(g, disk) else BlockOf(disk, mem[inum], NDIRECT + j) == addr
      ensures addr == 0 <==> FreeCount(g, old(disk)) < Lack(old(disk), old(mem)[inum], NDIRECT + j)
      ensures addr != 0 ==> FreeCount(g, disk) == FreeCount(g, old(disk)) - Lack(old(disk), old(mem)[inum], NDIRECT + j)
      ensures BlockOf(old(disk), old(mem)[inum], NDIRECT + j) != 0 ==>
        disk == old(disk) && mem == old(mem) && dirty == old(dirty) && maps == {} && addr != 0
      ensures Logged(g, old(dirty), dirty, old(mem)[inum], mem[inum], addr, maps)
      ensures AllLogged(g, old(disk), old(dirty), disk, dirty)
      ensures OwnsMore(old(owner), owner, inum, (NDIRECT + j) * BSIZE + 1)
    {
      hide Own, Keeps, Bitmaps, BlockOf, Full, OwnsMore, AddrsOnly, Logged, FreeCount, Lack, Missing, AllLogged;
      LackNone(old(disk), old(mem)[inum], NDIRECT + j);
      ghost var maps1, maps2, hi := {}, {}, (NDIRECT + j) * BSIZE + 1;
      var ib: nat;
      ib, maps1 := PtrBlock(inum, NDIRECT);
      ghost var o1 := owner;
      OwnsStep(old(owner), o1, ib, Ptr(inum, NDIRECT), hi);
      maps := maps1;
      addr := 0;
      NoIndirect(old(disk), old(mem)[inum], NDIRECT + j);
      PtrAddrs(old(mem), mem, inum);
      ghost var dirty1 := dirty;
      LoggedOne(g, old(dirty), dirty, old(mem)[inum], mem[inum], ib, addr, maps1);
      if ib != 0 {
        ghost var d1, m1 := disk, mem;
        IndirectBelow(g, disk, mem, owner, inum);
        NewIndirect(old(disk), old(mem)[inum], d1, m1[inum], NDIRECT + j);
        LackIndirect(old(disk), old(mem)[inum], d1, m1[inum], NDIRECT + j);
        addr, maps2 := EntryBlock(inum, j);
        OwnsStep(o1, owner, addr, Entry(inum, j), hi);
        OwnsTwice(old(owner), o1, owner, inum, hi, hi);
        maps := maps1 + maps2;
        KeepsTwice(old(disk), old(mem), d1, m1, disk, mem);
        LoggedTwice(g, old(disk), old(dirty), d1, dirty1, disk, dirty);
        LoggedTwo(g, old(dirty), dirty1, dirty, old(mem)[inum], mem[inum], addr, maps1, maps2);
      }
    }

    /** Entry j of the indirect block, allocated if it is not there yet; 0 is the panic. */
    method EntryBlock(inum: nat, j: nat) returns (addr: nat, ghost maps: set<nat>)
      requires Shape() && inum < g.ninodes && j < NINDIRECT
      requires 0 < mem[inum].addrs[NDIRECT] < g.size
      modifies this`disk, this`owner, this`dirty
      ensures Shape() && Keeps(old(disk), mem, disk, mem)
      ensures if addr == 0 then Full(g, disk) else BlockOf(disk, mem[inum], NDIRECT + j) == addr
      ensures addr == 0 <==> BlockOf(old(disk), mem[inum], NDIRECT + j) == 0 && FreeCount(g, old(disk)) == 0
      ensures addr != 0 ==>
        FreeCount(g, disk) == FreeCount(g, old(disk)) - Missing(old(disk), mem[inum], NDIRECT + j)
      ensures BlockOf(old(disk), mem[inum], NDIRECT + j) != 0 ==>
        disk == old(disk) && dirty == old(dirty) && maps == {} && addr != 0
      ensures dirty <= old(dirty) + maps + {addr} + {mem[inum].addrs[NDIRECT]} && Bitmaps(g, maps) && |maps| <= 1
      ensures AllLogged(g, old(disk), old(dirty), disk, dirty)
      ensures owner == old(owner) || owner == old(owner)[addr := Entry(inum, j)]
    {
      hide Own, Keeps, AllocBlock, Used, Full, FreeCount, AllLogged;
      SelfKeeps(disk, mem);
      NoneLogged(g, disk, dirty);
      maps := {};
      var ib := mem[inum].addrs[NDIRECT];
      addr := WordAt(disk[ib], j);
      if addr == 0 {
        ghost var d1 := disk;
        MetaUsed(g, disk, mem, owner);
        addr := Balloc();
        if addr != 0 {
          AllocEntry(g, d1, mem, owner, addr, inum, j);
          DataFree(g, disk, ib, SetWord(disk[ib], j, addr));
          AllocLogged(g, d1, old(dirty), addr);
          InOrder(g);
          OneLogged(g, old(disk), old(dirty), disk, dirty, ib, SetWord(disk[ib], j, addr));
          disk := disk[ib := SetWord(disk[ib], j, addr)];
          owner := owner[addr := Entry(inum, j)];
          dirty := dirty + {ib};
          maps := {BBLOCK(g, addr)};
          AllocFacts(g, d1, addr);
        }
      }
    }

    /** iupdate: the inode in memory is copied to disk. */
    method Iupdate(inum: nat)
      requires inum < |mem| == |dinode|
      modifies this`dinode, this`dirty
      ensures dinode == old(dinode)[inum := mem[inum]] && dirty == old(dirty) + {IBLOCK(g, inum)}
    {
      dinode := dinode[inum := mem[inum]];
      dirty := dirty + {IBLOCK(g, inum)};
    }

    // ---- truncation --------------------------------------------------------------------------

    /** One direct block of itrunc. */
    method TruncDirect(inum: nat, i: nat) returns (panicked: bool)
      requires Shape() && inum < g.ninodes && i < NDIRECT
      modifies this`disk, this`mem, this`owner, this`dirty
      ensures !panicked && Shape() && DataKept(g, old(disk), disk)
      ensures mem == old(mem)[inum := old(mem)[inum].(addrs := old(mem)[inum].addrs[i := 0])]
      ensures owner.Keys <= old(owner).Keys && forall b :: b in owner ==> owner[b] == old(owner)[b]
      ensures dirty <= old(dirty) + AllBitmaps(g) && AllLogged(g, old(disk), old(dirty), disk, dirty)
    {
      hide Own, FreeBlock, Used, AllBitmaps, AllLogged;
      NoneLogged(g, disk, dirty);
      panicked := false;
      var b := mem[inum].addrs[i];
      assert b == 0 ==> mem[inum].addrs[i := 0] == mem[inum].addrs && mem[inum := mem[inum]] == mem;
      if b != 0 {
        FreeDirect(g, disk, mem, owner, inum, i);
        FreeDisk(g, disk, b);
        FreeLogged(g, disk, dirty, b);
        InBitmap(g, b);
        panicked := Bfree(b);
        if panicked { return; }
        mem := mem[inum := mem[inum].(addrs := mem[inum].addrs[i := 0])];
        owner := owner - {b};
      }
    }

    /** One entry of the indirect block bp in itrunc. */
    method TruncEntry(inum: nat, j: nat, bp: Block) returns (panicked: bool)
      requires ValidGeo(g) && |disk| == g.size && inum < |mem| && j < NINDIRECT
      requires Own(g, disk, mem, owner, DeadEntries(inum, j))
      requires 0 < mem[inum].addrs[NDIRECT] < g.size && disk[mem[inum].addrs[NDIRECT]] == bp
      modifies this`disk, this`owner, this`dirty
      ensures !panicked && |disk| == g.size && DataKept(g, old(disk), disk)
      ensures Own(g, disk, mem, owner, DeadEntries(inum, j + 1))
      ensures owner.Keys <= old(owner).Keys && forall b :: b in owner ==> owner[b] == old(owner)[b]
      ensures forall b :: b in owner ==> owner[b] != Entry(inum, j)
      ensures dirty <= old(dirty) + AllBitmaps(g) && AllLogged(g, old(disk), old(dirty), disk, dirty)
    {
      hide Own, FreeBlock, Used, AllBitmaps, AllLogged;
      NoneLogged(g, disk, dirty);
      panicked := false;
      var b := WordAt(bp, j);
      NextDead(g, disk, mem, owner, inum, j);
      if b != 0 {
        FreeEntry(g, disk, mem, owner, DeadEntries(inum, j), inum, j);
        FreeDisk(g, disk, b);
        FreeLogged(g, disk, dirty, b);
        InBitmap(g, b);
        panicked := Bfree(b);
        if panicked { return; }
        owner := owner - {b};
      }
    }

    /** itrunc: free every block of the file; "freeing free block" cannot happen. */
    method Itrunc(inum: nat) returns (panicked: bool)
      requires Valid() && inum < g.ninodes
      modifies this
      ensures !panicked && Valid() && KeepsBut(old(disk), old(mem), disk, mem, inum)
      ensures mem == old(mem)[inum := old(mem)[inum].(size := 0, addrs := seq(NDIRECT + 1, _ => 0))]
      ensures dinode == old(dinode)[inum := mem[inum]]
      ensures owner == map b | b in old(owner) && old(owner)[b].inum != inum :: old(owner)[b]
      ensures dirty <= old(dirty) + AllBitmaps(g) + {IBLOCK(g, inum)}
      ensures AllLogged(g, old(disk), old(dirty), disk, dirty) && InodesLogged(g, old(dinode), dinode, dirty)
      ensures old(dirty) == {} && g.size <= BPB ==> |dirty| <= 2
    {
      hide AllBitmaps, AllLogged;
      hide Own, Used, NoHoles, AllTight, FreeClean, BlockOf, KeepsBut;
      NoneLogged(g, disk, dirty);
      ghost var d0, m0, o0 := disk, mem, owner;
      for i := 0 to NDIRECT
        invariant Shape() && DataKept(g, d0, disk) && AddrsOnly(m0, mem, inum) && dinode == old(dinode)
        invariant forall k :: 0 <= k < i ==> mem[inum].addrs[k] == 0
        invariant mem[inum].addrs[NDIRECT] == m0[inum].addrs[NDIRECT]
        invariant SubOwner(o0, owner) && dirty <= old(dirty) + AllBitmaps(g)
        invariant AllLogged(g, d0, old(dirty), disk, dirty)
      {
        ghost var d1, dirty1 := disk, dirty;
        panicked := TruncDirect(inum, i);
        LoggedTwice(g, d0, old(dirty), d1, dirty1, disk, dirty);
        if panicked { return; }
      }
      if mem[inum].addrs[NDIRECT] != 0 {
        ghost var d1, dirty1 := disk, dirty;
        panicked := TruncIndirect(inum);
        LoggedTwice(g, d0, old(dirty), d1, dirty1, disk, dirty);
        if panicked { return; }
      }
      panicked := false;
      assert mem[inum].addrs == seq(NDIRECT + 1, _ => 0);
      assert mem == m0[inum := m0[inum].(addrs := seq(NDIRECT + 1, _ => 0))];
      mem := mem[inum := mem[inum].(size := 0)];
      InodeBlock(g, inum);
      MoreLogged(g, d0, old(dirty), disk, dirty, IBLOCK(g, inum));
      Iupdate(inum);
      FewLogged(g, old(dirty), dirty, IBLOCK(g, inum));
      Truncated(g, d0, m0, o0, disk, mem, owner, inum);
    }

    /** The indirect half of itrunc. */
    method TruncIndirect(inum: nat) returns (panicked: bool)
      requires Shape() && inum < g.ninodes && mem[inum].addrs[NDIRECT] != 0
      modifies this`disk, this`mem, this`owner, this`dirty
      ensures !panicked && Shape() && DataKept(g, old(disk), disk)
      ensures mem == old(mem)[inum := old(mem)[inum].(addrs := old(mem)[inum].addrs[NDIRECT := 0])]
      ensures SubOwner(old(owner), owner) && dirty <= old(dirty) + AllBitmaps(g)
      ensures AllLogged(g, old(disk), old(dirty), disk, dirty)
    {
      hide Own, FreeBlock, Used, AllBitmaps, AllLogged;
      NoneLogged(g, disk, dirty);
      ghost var o0 := owner;
      var ib := mem[inum].addrs[NDIRECT];
      IndirectBelow(g, disk, mem, owner, inum);
      var bp := disk[ib];
      NoneDead(inum);
      for j := 0 to NINDIRECT
        invariant |disk| == g.size && DataKept(g, old(disk), disk) && mem == old(mem)
        invariant Own(g, disk, mem, owner, DeadEntries(inum, j)) && SubOwner(o0, owner)
        invariant forall b :: b in owner && owner[b].Entry? && owner[b].inum == inum ==> owner[b].j >= j
        invariant dirty <= old(dirty) + AllBitmaps(g) && AllLogged(g, old(disk), old(dirty), disk, dirty)
      {
        ghost var d1, dirty1 := disk, dirty;
        panicked := TruncEntry(inum, j, bp);
        LoggedTwice(g, old(disk), old(dirty), d1, dirty1, disk, dirty);
        if panicked { return; }
      }
      EntriesGone(g, disk, mem, owner, inum);
      FreeIndirect(g, disk, mem, owner, inum);
      FreeDisk(g, disk, ib);
      InBitmap(g, ib);
      FreeLogged(g, disk, dirty, ib);
      ghost var d1, dirty1 := disk, dirty;
      panicked := Bfree(ib);
      LoggedTwice(g, old(disk), old(dirty), d1, dirty1, disk, dirty);
      if panicked { return; }
      mem := mem[inum := mem[inum].(addrs := mem[inum].addrs[NDIRECT := 0])];
      owner := owner - {ib};
    }

    /** iput's last act for an inode without links or other references. */
    method FreeInode(inum: nat) returns (panicked: bool)
      requires Valid() && inum < g.ninodes
      modifies this
      ensures !panicked && Valid() && KeepsBut(old(disk), old(mem), disk, mem, inum)
      ensures mem[inum].kind == 0 && dinode == old(dinode)[inum := mem[inum]]
      ensures owner == map b | b in old(owner) && old(owner)[b].inum != inum :: old(owner)[b]
      ensures dirty <= old(dirty) + AllBitmaps(g) + {IBLOCK(g, inum)}
      ensures AllLogged(g, old(disk), old(dirty), disk, dirty) && InodesLogged(g, old(dinode), dinode, dirty)
      ensures old(dirty) == {} && g.size <= BPB ==> |dirty| <= 2
    {
      hide Own, NoHoles, AllBitmaps, AllTight, BlockOf, KeepsBut, AllLogged;
      panicked := Itrunc(inum);
      if panicked { return; }
      ghost var m1 := mem;
      mem := mem[inum := mem[inum].(kind := 0)];
      SameAddrs(g, disk, m1, mem, owner, inum);
      KindOnly(old(disk), old(mem), disk, m1, mem, inum);
      InodeBlock(g, inum);
      MoreLogged(g, old(disk), old(dirty), disk, dirty, IBLOCK(g, inum));
      Iupdate(inum);
      FewLogged(g, old(dirty), dirty, IBLOCK(g, inum));
    }
  }

  // ---- what has been logged -----------------------------------------------------------------

  lemma NoneLogged(g: Geo, d: Disk, dirty: set<nat>)
    ensures AllLogged(g, d, dirty, d, dirty)
  {
  }

  lemma LoggedTwice(g: Geo, d: Disk, dirty: set<nat>, d1: Disk, dirty1: set<nat>, d2: Disk, dirty2: set<nat>)
    requires AllLogged(g, d, dirty, d1, dirty1) && AllLogged(g, d1, dirty1, d2, dirty2)
    ensures AllLogged(g, d, dirty, d2, dirty2)
  {
  }

  lemma OneLogged(g: Geo, d: Disk, dirty: set<nat>, d1: Disk, dirty1: set<nat>, b: nat, x: Block)
    requires AllLogged(g, d, dirty, d1, dirty1) && b < |d1| && g.inodestart <= b < g.size
    ensures AllLogged(g, d, dirty, d1[b := x], dirty1 + {b})
  {
  }

  lemma MoreLogged(g: Geo, d: Disk, dirty: set<nat>, d1: Disk, dirty1: set<nat>, b: nat)
    requires AllLogged(g, d, dirty, d1, dirty1) && g.inodestart <= b < g.size
    ensures AllLogged(g, d, dirty, d1, dirty1 + {b})
  {
  }

  lemma AllocLogged(g: Geo, d: Disk, dirty: set<nat>, b: nat)
    requires ValidGeo(g) && |d| == g.size && g.nmeta <= b < g.size && !Used(g, d, b)
    ensures AllLogged(g, d, dirty, AllocBlock(g, d, b), dirty + {BBLOCK(g, b), b})
  {
    BitmapBelow(g, b);
    InOrder(g);
    hide SetBit, ValidGeo, BBLOCK, BitAt;
  }

  lemma FreeLogged(g: Geo, d: Disk, dirty: set<nat>, b: nat)
    requires ValidGeo(g) && |d| == g.size && b < g.size && Used(g, d, b)
    ensures AllLogged(g, d, dirty, FreeBlock(g, d, b), dirty + {BBLOCK(g, b)})
  {
    BitmapBelow(g, b);
    InOrder(g);
    hide ClearBit, ValidGeo, BBLOCK, BitAt;
  }

  /** Inode blocks, bitmap, data. */
  lemma InOrder(g: Geo)
    requires ValidGeo(g)
    ensures g.inodestart < g.bmapstart < g.nmeta <= g.size
  {
  }

  lemma InodeBlock(g: Geo, n: nat)
    requires ValidGeo(g) && n < g.ninodes
    ensures g.inodestart <= IBLOCK(g, n) < g.bmapstart < g.nmeta <= g.size
  {
  }

  /** The blocks of the bitmap. */
  ghost function AllBitmaps(g: Geo): set<nat>
    requires ValidGeo(g)
  {
    set b: nat | b < g.size :: BBLOCK(g, b)
  }

  lemma InBitmap(g: Geo, b: nat)
    requires ValidGeo(g) && b < g.size
    ensures BBLOCK(g, b) in AllBitmaps(g)
  {
  }

  /** With one bitmap block in all, freeing logs two blocks. */
  lemma FewLogged(g: Geo, dirty0: set<nat>, dirty: set<nat>, ib: nat)
    requires ValidGeo(g) && dirty <= dirty0 + AllBitmaps(g) + {ib}
    ensures dirty0 == {} && g.size <= BPB ==> |dirty| <= 2
  {
    if dirty0 == {} && g.size <= BPB {
      assert dirty <= {g.bmapstart, ib};
      assert dirty == dirty * {g.bmapstart} + dirty * {ib};
      assert dirty * {g.bmapstart} <= {g.bmapstart} && dirty * {ib} <= {ib};
      Singles(dirty * {g.bmapstart}, g.bmapstart);
      Singles(dirty * {ib}, ib);
    }
  }

  lemma Singles(s: set<nat>, x: nat)
    requires s <= {x}
    ensures |s| <= 1
  {
    if s != {} { assert s == {x}; }
  }

  ghost predicate Bitmaps(g: Geo, maps: set<nat>) {
    forall m :: m in maps ==> g.bmapstart <= m && (ValidGeo(g) ==> m <= g.bmapstart + (g.size - 1) / BPB)
  }

  lemma AllocFacts(g: Geo, d: Disk, b: nat)
    requires ValidGeo(g) && |d| == g.size && b < g.size && !Used(g, d, b)
    ensures AllocBlock(g, d, b)[b] == ZeroBlock() && |AllocBlock(g, d, b)| == |d|
    ensures Bitmaps(g, {BBLOCK(g, b)})
  {
    BitmapBelow(g, b);
  }

  lemma NoMaps(g: Geo)
    ensures Bitmaps(g, {})
  {
  }

  lemma NoIndirect(d: Disk, ino: Inode, bn: nat)
    requires NDIRECT <= bn < MAXFILE
    ensures BlockOf(d, ino, bn) != 0 ==> ino.addrs[NDIRECT] != 0
  {
  }

  lemma PtrAddrs(m0: seq<Inode>, m: seq<Inode>, x: nat)
    requires AddrsOnly(m0, m, x)
    ensures |m| == |m0| && x < |m|
  {
  }

  lemma LoggedOne(g: Geo, dirty0: set<nat>, dirty: set<nat>, ino0: Inode, ino: Inode, ib: nat, addr: nat,
                  maps: set<nat>)
    requires dirty <= dirty0 + maps + {ib} && Bitmaps(g, maps) && |maps| <= 1 && ib == ino.addrs[NDIRECT] && addr == 0
    requires ino0.addrs[NDIRECT] != 0 ==> dirty == dirty0 && ino == ino0
    ensures Logged(g, dirty0, dirty, ino0, ino, addr, maps)
  {
  }

  lemma LoggedTwo(g: Geo, dirty0: set<nat>, dirty1: set<nat>, dirty: set<nat>, ino0: Inode, ino: Inode, addr: nat,
                  maps1: set<nat>, maps2: set<nat>)
    requires Logged(g, dirty0, dirty1, ino0, ino, 0, maps1) && |maps1| <= 1 && ino.addrs[NDIRECT] != 0
    requires dirty1 <= dirty0 + maps1 + Ind(ino) && (ino0.addrs[NDIRECT] != 0 ==> maps1 == {})
    requires dirty <= dirty1 + maps2 + {addr} + {ino.addrs[NDIRECT]} && Bitmaps(g, maps2) && |maps2| <= 1
    ensures Logged(g, dirty0, dirty, ino0, ino, addr, maps1 + maps2)
  {
    TwoMaps(g, maps1, maps2);
    assert maps1 == {} ==> maps1 + maps2 == maps2;
  }

  lemma TwoMaps(g: Geo, a: set<nat>, b: set<nat>)
    requires Bitmaps(g, a) && Bitmaps(g, b)
    ensures |a + b| <= |a| + |b| && Bitmaps(g, a + b)
  {
  }

  lemma SameGroup(g: Geo, b: nat, bi: nat)
    requires b % BPB == 0 && bi < BPB
    ensures BBLOCK(g, b + bi) == BBLOCK(g, b) && (b + bi) % BPB == bi
  {
  }

  lemma SelfKeeps(d: Disk, mem: seq<Inode>)
    ensures Keeps(d, mem, d, mem)
  {
  }

  lemma KeepsTwice(d: Disk, mem: seq<Inode>, d1: Disk, mem1: seq<Inode>, d2: Disk, mem2: seq<Inode>)
    requires Keeps(d, mem, d1, mem1) && Keeps(d1, mem1, d2, mem2)
    ensures Keeps(d, mem, d2, mem2)
  {
  }

  lemma MetaUsed(g: Geo, d: Disk, mem: seq<Inode>, owner: map<nat, Slot>)
    requires Own(g, d, mem, owner, {})
    ensures forall b: nat :: b < g.nmeta ==> Used(g, d, b)
  {
  }

  lemma IndirectBelow(g: Geo, d: Disk, mem: seq<Inode>, owner: map<nat, Slot>, n: nat)
    requires Own(g, d, mem, owner, {}) && n < |mem| && mem[n].addrs[NDIRECT] != 0
    ensures g.nmeta <= mem[n].addrs[NDIRECT] < g.size
  {
    assert mem[n].addrs[NDIRECT] == AddrOf(d, mem, Ptr(n, NDIRECT));
  }

  lemma NewIndirect(d: Disk, ino: Inode, d': Disk, ino': Inode, bn: nat)
    requires NDIRECT <= bn < MAXFILE && |d'| == |d| && ino'.addrs[NDIRECT] < |d|
    requires ino'.addrs[NDIRECT] != 0
    requires ino.addrs[NDIRECT] != 0 ==> d' == d && ino'.addrs[NDIRECT] == ino.addrs[NDIRECT]
    ensures BlockOf(d', ino', bn) == WordAt(d'[ino'.addrs[NDIRECT]], bn - NDIRECT)
    ensures BlockOf(d, ino, bn) != 0 ==> ino.addrs[NDIRECT] != 0 && BlockOf(d', ino', bn) == BlockOf(d, ino, bn)
  {
  }

  lemma LackNone(d: Disk, ino: Inode, bn: nat)
    requires NDIRECT <= bn < MAXFILE
    ensures ino.addrs[NDIRECT] == 0 ==> Lack(d, ino, bn) == 2
    ensures BlockOf(d, ino, bn) != 0 ==> Missing(d, ino, bn) == 0 && Lack(d, ino, bn) == 0
    ensures BlockOf(d, ino, bn) == 0 ==> Missing(d, ino, bn) == 1
  {
  }

  /** An indirect block that is new names nothing. */
  lemma LackIndirect(d: Disk, ino: Inode, d': Disk, ino': Inode, bn: nat)
    requires NDIRECT <= bn < MAXFILE && 0 < ino'.addrs[NDIRECT] < |d'| && |d'| == |d|
    requires if ino.addrs[NDIRECT] == 0 then d'[ino'.addrs[NDIRECT]] == ZeroBlock()
             else d' == d && ino'.addrs[NDIRECT] == ino.addrs[NDIRECT]
    ensures Lack(d, ino, bn) == Missing(d', ino', bn) + if ino.addrs[NDIRECT] == 0 then 1 else 0
    ensures Missing(d', ino', bn) == if BlockOf(d', ino', bn) == 0 then 1 else 0
  {
    ZeroWord(bn - NDIRECT);
  }

  /** Freeing changes bitmap blocks only. */
  ghost predicate DataKept(g: Geo, d: Disk, d': Disk) {
    |d'| == |d| && forall a: nat :: g.nmeta <= a < |d| ==> d'[a] == d[a]
  }

  ghost predicate SubOwner(o: map<nat, Slot>, o': map<nat, Slot>) {
    o'.Keys <= o.Keys && forall b :: b in o' ==> o'[b] == o[b]
  }

  lemma NoneDead(n: nat)
    ensures DeadEntries(n, 0) == {}
  {
  }

  lemma NextDead(g: Geo, d: Disk, mem: seq<Inode>, owner: map<nat, Slot>, n: nat, j: nat)
    requires Own(g, d, mem, owner, DeadEntries(n, j)) && n < |mem| && j < NINDIRECT
    requires 0 < mem[n].addrs[NDIRECT] < g.size
    ensures DeadEntries(n, j + 1) == DeadEntries(n, j) + {Entry(n, j)}
    ensures Entry(n, j) !in DeadEntries(n, j) && forall s :: s in DeadEntries(n, j) ==> s.Entry?
    ensures BlockOf(d, mem[n], NDIRECT + j) == WordAt(d[mem[n].addrs[NDIRECT]], j)
    ensures WordAt(d[mem[n].addrs[NDIRECT]], j) == 0 ==> Own(g, d, mem, owner, DeadEntries(n, j + 1))
    ensures forall b :: b in owner && owner[b] == Entry(n, j) ==> b == WordAt(d[mem[n].addrs[NDIRECT]], j) && b != 0
  {
    hide BlockOf, AddrOf, Used, WordAt, DeadEntries;
    DeadMore(n, j);
    SlotAddr(d, mem, n, NDIRECT + j);
    IndirectIs(d, mem[n], NDIRECT + j);
  }

  lemma DeadMore(n: nat, j: nat)
    ensures DeadEntries(n, j + 1) == DeadEntries(n, j) + {Entry(n, j)}
    ensures Entry(n, j) !in DeadEntries(n, j) && forall s :: s in DeadEntries(n, j) ==> s.Entry?
  {
  }

  lemma EntriesGone(g: Geo, d: Disk, mem: seq<Inode>, owner: map<nat, Slot>, n: nat)
    requires Own(g, d, mem, owner, DeadEntries(n, NINDIRECT))
    requires forall b :: b in owner && owner[b].Entry? && owner[b].inum == n ==> owner[b].j >= NINDIRECT
    ensures forall b :: b in owner ==> !(owner[b].Entry? && owner[b].inum == n)
  {
  }

  /** With no addresses left, exactly the blocks of the inode have been freed. */
  lemma Truncated(g: Geo, d0: Disk, m0: seq<Inode>, o0: map<nat, Slot>,
                  d: Disk, m: seq<Inode>, o: map<nat, Slot>, n: nat)
    requires Own(g, d0, m0, o0, {}) && NoHoles(d0, m0) && AllTight(d0, m0) && FreeClean(m0) && n < |m0|
    requires m == m0[n := m0[n].(size := 0, addrs := seq(NDIRECT + 1, _ => 0))]
    requires DataKept(g, d0, d) && SubOwner(o0, o)
    requires Own(g, d, m0[n := m0[n].(addrs := seq(NDIRECT + 1, _ => 0))], o, {})
    ensures Own(g, d, m, o, {}) && NoHoles(d, m) && AllTight(d, m) && FreeClean(m)
    ensures KeepsBut(d0, m0, d, m, n)
    ensures o == map b | b in o0 && o0[b].inum != n :: o0[b]
  {
    var m1 := m0[n := m0[n].(addrs := seq(NDIRECT + 1, _ => 0))];
    SameAddrs(g, d, m1, m, o, n);
    TruncKeeps(g, d0, m0, o0, d, m, n);
    TruncOwner(g, d0, m0, o0, d, m, o, n);
    TruncTight(g, d0, m0, o0, d, m, n);
    ButHoles(d0, m0, d, m, n);
  }

  lemma TruncTight(g: Geo, d0: Disk, m0: seq<Inode>, o0: map<nat, Slot>, d: Disk, m: seq<Inode>, n: nat)
    requires Own(g, d0, m0, o0, {}) && AllTight(d0, m0) && DataKept(g, d0, d) && n < |m0|
    requires m == m0[n := m0[n].(size := 0, addrs := seq(NDIRECT + 1, _ => 0))]
    ensures AllTight(d, m)
  {
    forall bn: nat | bn < MAXFILE ensures BlockOf(d, m[n], bn) == 0 {}
    hide Own, BlockOf, DataKept;
    forall k | 0 <= k < |m| && k != n ensures Tight(d, m[k], m[k].size) {
      assert Tight(d0, m0[k], m0[k].size);
      forall bn: nat | bn < MAXFILE ensures BlockOf(d, m[k], bn) == BlockOf(d0, m0[k], bn) {
        OtherBlock(g, d0, m0, o0, d, k, bn);
      }
    }
  }

  lemma SameAddrs(g: Geo, d: Disk, m: seq<Inode>, m': seq<Inode>, o: map<nat, Slot>, n: nat)
    requires Own(g, d, m, o, {}) && n < |m| == |m'|
    requires forall i :: 0 <= i < |m| ==> m'[i].addrs == m[i].addrs
    ensures Own(g, d, m', o, {})
  {
  }

  lemma OtherBlock(g: Geo, d0: Disk, m0: seq<Inode>, o0: map<nat, Slot>, d: Disk, n: nat, bn: nat)
    requires Own(g, d0, m0, o0, {}) && DataKept(g, d0, d) && n < |m0| && bn < MAXFILE
    ensures BlockOf(d, m0[n], bn) == BlockOf(d0, m0[n], bn)
    ensures BlockOf(d0, m0[n], bn) != 0 ==>
      BlockOf(d0, m0[n], bn) < |d0| && d[BlockOf(d0, m0[n], bn)] == d0[BlockOf(d0, m0[n], bn)]
  {
    if m0[n].addrs[NDIRECT] != 0 { IndirectBelow(g, d0, m0, o0, n); }
    if BlockOf(d0, m0[n], bn) != 0 { DataOwned(g, d0, m0, o0, n, bn); }
  }

  lemma TruncKeeps(g: Geo, d0: Disk, m0: seq<Inode>, o0: map<nat, Slot>, d: Disk, m: seq<Inode>, n: nat)
    requires Own(g, d0, m0, o0, {}) && DataKept(g, d0, d) && n < |m0|
    requires |m| == |m0| && forall k :: 0 <= k < |m0| && k != n ==> m[k] == m0[k]
    ensures KeepsBut(d0, m0, d, m, n)
  {
    hide Own, BlockOf;
    forall k, bn | 0 <= k < |m0| && k != n && 0 <= bn < MAXFILE && BlockOf(d0, m0[k], bn) != 0
      ensures BlockOf(d, m0[k], bn) == BlockOf(d0, m0[k], bn) < |d0|
      ensures d[BlockOf(d0, m0[k], bn)] == d0[BlockOf(d0, m0[k], bn)]
    {
      OtherBlock(g, d0, m0, o0, d, k, bn);
    }
  }

  lemma TruncOwner(g: Geo, d0: Disk, m0: seq<Inode>, o0: map<nat, Slot>,
                   d: Disk, m: seq<Inode>, o: map<nat, Slot>, n: nat)
    requires Own(g, d0, m0, o0, {}) && Own(g, d, m, o, {}) && n < |m0| == |m|
    requires DataKept(g, d0, d) && SubOwner(o0, o)
    requires forall k :: 0 <= k < |m0| && k != n ==> m[k] == m0[k]
    requires m[n].addrs == seq(NDIRECT + 1, _ => 0)
    ensures o == map b | b in o0 && o0[b].inum != n :: o0[b]
  {
    forall b | b in o0 ensures b in o <==> o0[b].inum != n {
      TruncSlot(g, d0, m0, o0, d, m, n, b);
      hide Own, AddrOf, DataKept;
      OwnsIt(g, d0, m0, o0, b);
      NamedOwned(g, d, m, o, o0[b]);
      if b in o { OwnsIt(g, d, m, o, b); }
    }
  }

  lemma OwnsIt(g: Geo, d: Disk, m: seq<Inode>, o: map<nat, Slot>, b: nat)
    requires Own(g, d, m, o, {}) && b in o
    ensures 0 < b && ValidSlot(|m|, o[b]) && AddrOf(d, m, o[b]) == b
  {
    hide AddrOf, Used;
  }

  lemma NamedOwned(g: Geo, d: Disk, m: seq<Inode>, o: map<nat, Slot>, s: Slot)
    requires Own(g, d, m, o, {}) && ValidSlot(|m|, s)
    ensures AddrOf(d, m, s) != 0 ==> AddrOf(d, m, s) in o
  {
  }

  /** Freeing inode n empties its slots and leaves every other slot. */
  lemma TruncSlot(g: Geo, d0: Disk, m0: seq<Inode>, o0: map<nat, Slot>, d: Disk, m: seq<Inode>, n: nat, b: nat)
    requires Own(g, d0, m0, o0, {}) && n < |m0| == |m| && DataKept(g, d0, d) && b in o0
    requires forall k :: 0 <= k < |m0| && k != n ==> m[k] == m0[k]
    requires m[n].addrs == seq(NDIRECT + 1, _ => 0)
    ensures ValidSlot(|m|, o0[b]) && AddrOf(d, m, o0[b]) == if o0[b].inum == n then 0 else b
  {
    var s := o0[b];
    OwnsIt(g, d0, m0, o0, b);
    hide Own;
    if s.inum != n && s.Entry? { OtherBlock(g, d0, m0, o0, d, s.inum, NDIRECT + s.j); }
  }

  lemma ButHoles(d: Disk, m: seq<Inode>, d': Disk, m': seq<Inode>, n: nat)
    requires KeepsBut(d, m, d', m', n) && NoHoles(d, m) && n < |m|
    requires Covered(d', m'[n], m'[n].size)
    ensures NoHoles(d', m')
  {
  }

  lemma KindOnly(d0: Disk, m0: seq<Inode>, d: Disk, m: seq<Inode>, m': seq<Inode>, n: nat)
    requires KeepsBut(d0, m0, d, m, n) && NoHoles(d, m) && AllTight(d, m) && FreeClean(m) && n < |m|
    requires m' == m[n := m[n].(kind := 0)] && m[n].addrs == seq(NDIRECT + 1, _ => 0)
    ensures KeepsBut(d0, m0, d, m', n) && NoHoles(d, m') && AllTight(d, m') && FreeClean(m')
  {
    forall k, bn: nat | 0 <= k < |m'| && bn < MAXFILE ensures BlockOf(d, m'[k], bn) == BlockOf(d, m[k], bn) {}
    forall k | 0 <= k < |m'| ensures Tight(d, m'[k], m'[k].size) { assert Tight(d, m[k], m[k].size); }
    forall k | 0 <= k < |m'| ensures Covered(d, m'[k], m'[k].size) {
      assert Covered(d, m[k], m[k].size);
      forall bn: nat | bn * BSIZE < m'[k].size ensures BlockOf(d, m'[k], bn) != 0 {
        assert BlockOf(d, m'[k], bn) == BlockOf(d, m[k], bn);
      }
    }
  }
}
