/** readi, writei and filewrite over the inode layer: a file behaves as a sequence of bytes,
    and one chunk of filewrite stays within the log budget of one operation. */
module FileIO {
  import opened Blocks
  import opened Inodes
  import opened InodeLayer
  import LogProtocol

  const CHUNK := (LogProtocol.MAXOPBLOCKS - 1 - 1 - 2) / 2 * BSIZE

  /** Overwriting from off on, and growing if src goes past the end. */
  function Splice(c: seq<Byte>, off: nat, src: seq<Byte>): seq<Byte>
    requires off <= |c|
  {
    c[..off] + src + if off + |src| < |c| then c[off + |src|..] else []
  }

  function Max(a: nat, b: nat): nat { if a < b then b else a }
  function Min(a: nat, b: nat): nat { if a < b then a else b }

  /** The bytes from o on of block x are replaced by piece. */
  function Patch(x: Block, o: nat, piece: seq<Byte>): Block
    requires o + |piece| <= BSIZE
  {
    x[..o] + piece + x[o + |piece|..]
  }

  // ---- one block -----------------------------------------------------------------------------

  /** A block of a file belongs to no other place: changing it changes those bytes only. */
  lemma PatchBytes(g: Geo, d: Disk, mem: seq<Inode>, owner: map<nat, Slot>, n: nat, bn: nat, x: Block)
    requires Own(g, d, mem, owner, {}) && n < |mem| && bn < MAXFILE && BlockOf(d, mem[n], bn) != 0
    ensures |d| == g.size && BlockOf(d, mem[n], bn) < g.size
    ensures var a := BlockOf(d, mem[n], bn); var d' := d[a := x];
      && Own(g, d', mem, owner, {}) && KeepsBut(d, mem, d', mem, n)
      && (forall b: nat :: b < MAXFILE ==> BlockOf(d', mem[n], b) == BlockOf(d, mem[n], b))
      && (forall b: nat :: b < MAXFILE && b != bn && BlockOf(d, mem[n], b) != 0 ==>
            BlockOf(d, mem[n], b) < g.size && d'[BlockOf(d, mem[n], b)] == d[BlockOf(d, mem[n], b)])
  {
    hide BlockOf, Used;
    DataOwned(g, d, mem, owner, n, bn);
    var a := BlockOf(d, mem[n], bn);
    var d' := d[a := x];
    WriteData(g, d, mem, owner, a, x);
    forall m, b: nat | 0 <= m < |mem| && b < MAXFILE
      ensures BlockOf(d', mem[m], b) == BlockOf(d, mem[m], b)
      ensures BlockOf(d, mem[m], b) != 0 ==> BlockOf(d, mem[m], b) < |d|
      ensures BlockOf(d, mem[m], b) != 0 && (m != n || b != bn) ==>
        d'[BlockOf(d, mem[m], b)] == d[BlockOf(d, mem[m], b)]
    {
      WriteKeepsAddr(g, d, mem, owner, a, x, m, b);
      if BlockOf(d, mem[m], b) != 0 { DataOwned(g, d, mem, owner, m, b); }
    }
  }

  lemma WriteKeepsAddr(g: Geo, d: Disk, mem: seq<Inode>, owner: map<nat, Slot>, a: nat, x: Block, m: nat, b: nat)
    requires Own(g, d, mem, owner, {}) && a in owner && IsData(owner[a]) && m < |mem| && b < MAXFILE
    ensures BlockOf(d[a := x], mem[m], b) == BlockOf(d, mem[m], b)
  {
    if mem[m].addrs[NDIRECT] != 0 { assert mem[m].addrs[NDIRECT] == AddrOf(d, mem, Ptr(m, NDIRECT)); }
  }

  lemma ButTwice(d: Disk, m: seq<Inode>, d1: Disk, m1: seq<Inode>, d2: Disk, m2: seq<Inode>, x: nat)
    requires KeepsBut(d, m, d1, m1, x) && KeepsBut(d1, m1, d2, m2, x)
    ensures KeepsBut(d, m, d2, m2, x)
  {
  }

  lemma KeepsToBut(d: Disk, m: seq<Inode>, d': Disk, m': seq<Inode>, x: nat)
    requires Keeps(d, m, d', m') && AddrsOnly(m, m', x)
    ensures KeepsBut(d, m, d', m', x)
  {
  }

  /** The bytes of a file after bmap (d1) and after block bn was patched. */
  lemma PatchedBytes(d1: Disk, ino: Inode, d2: Disk, bn: nat, o: nat, piece: seq<Byte>, len: nat)
    requires bn < MAXFILE && o + |piece| <= BSIZE && |d1| == |d2|
    requires 0 < BlockOf(d1, ino, bn) < |d1|
    requires d2[BlockOf(d1, ino, bn)] == Patch(d1[BlockOf(d1, ino, bn)], o, piece)
    requires forall b: nat :: b < MAXFILE ==> BlockOf(d2, ino, b) == BlockOf(d1, ino, b)
    requires forall b: nat :: b < MAXFILE && b != bn && BlockOf(d1, ino, b) != 0 ==>
      BlockOf(d1, ino, b) < |d1| && d2[BlockOf(d1, ino, b)] == d1[BlockOf(d1, ino, b)]
    requires Covered(d1, ino, len) && bn * BSIZE + o <= len && |piece| > 0
    ensures var off := bn * BSIZE + o;
      && off + |piece| <= MAXFILE * BSIZE && Covered(d2, ino, Max(len, off + |piece|))
      && forall p: nat :: p < Max(len, off + |piece|) ==>
           ByteAt(d2, ino, p) == if off <= p < off + |piece| then piece[p - off] else ByteAt(d1, ino, p)
  {
  }

  lemma SameSpot(off: nat)
    ensures off / BSIZE * BSIZE + off % BSIZE == off
  {
  }

  /** The body of writei's loop: one block is found or allocated, patched and logged. */
  method WriteBlock(fs: FileSystem, inum: nat, off: nat, piece: seq<Byte>, ghost len: nat)
    returns (ok: bool, ghost addr: nat, ghost maps: set<nat>)
    requires fs.Shape() && inum < fs.g.ninodes
    requires 0 < |piece| <= BSIZE - off % BSIZE && off + |piece| <= MAXFILE * BSIZE
    requires off <= len && Covered(fs.disk, fs.mem[inum], len)
    modifies fs
    ensures fs.Shape() && fs.dinode == old(fs.dinode) && AddrsOnly(old(fs.mem), fs.mem, inum)
    ensures if ok then KeepsBut(old(fs.disk), old(fs.mem), fs.disk, fs.mem, inum) else Full(fs.g, fs.disk)
    ensures ok <==> Lack(old(fs.disk), old(fs.mem)[inum], off / BSIZE) <= FreeCount(fs.g, old(fs.disk))
    ensures ok ==>
      FreeCount(fs.g, fs.disk) == FreeCount(fs.g, old(fs.disk)) - Lack(old(fs.disk), old(fs.mem)[inum], off / BSIZE)
    ensures ok ==> Covered(fs.disk, fs.mem[inum], Max(len, off + |piece|))
    ensures ok ==> forall p: nat :: p < Max(len, off + |piece|) ==>
      ByteAt(fs.disk, fs.mem[inum], p) ==
        if off <= p < off + |piece| then piece[p - off] else ByteAt(old(fs.disk), old(fs.mem)[inum], p)
    ensures off < len || off % BSIZE != 0 ==> fs.mem == old(fs.mem) && maps == {}
    ensures Logged(fs.g, old(fs.dirty), fs.dirty, old(fs.mem)[inum], fs.mem[inum], addr, maps)
    ensures AllLogged(fs.g, old(fs.disk), old(fs.dirty), fs.disk, fs.dirty)
    ensures OwnsMore(old(fs.owner), fs.owner, inum, off + |piece|)
  {
    hide Own, Keeps, KeepsBut, Full, Bitmaps, BlockOf, Patch, ByteAt, Covered, Used, OwnsMore, FreeCount, Lack,
      AllLogged;
    OwnsSame(fs.owner, inum, off + |piece|);
    ghost var d0, m0 := fs.disk, fs.mem;
    var bn := off / BSIZE;
    assert bn < MAXFILE;
    SameSpot(off);
    CoveredBlock(d0, m0[inum], len, bn);
    var a;
    a, maps := fs.Bmap(inum, bn);
    OwnsSame(fs.owner, inum, off + |piece|);
    OwnsTwice(old(fs.owner), fs.owner, fs.owner, inum, bn * BSIZE + 1, off + |piece|);
    addr := a;
    ok := a != 0;
    if ok {
      ghost var d1, m1 := fs.disk, fs.mem;
      KeepsBytes(d0, m0, d1, m1, inum, len);
      KeepsToBut(d0, m0, d1, m1, inum);
      DataOwned(fs.g, d1, m1, fs.owner, inum, bn);
      var bp := Patch(fs.disk[a], off % BSIZE, piece);
      PatchBytes(fs.g, d1, m1, fs.owner, inum, bn, bp);
      DataFree(fs.g, d1, a, bp);
      InOrder(fs.g);
      OneLogged(fs.g, d0, old(fs.dirty), d1, fs.dirty, a, bp);
      fs.disk := fs.disk[a := bp];
      fs.dirty := fs.dirty + {a};
      PatchedBytes(d1, m1[inum], fs.disk, bn, off % BSIZE, piece, len);
      ButTwice(d0, m0, d1, m1, fs.disk, fs.mem, inum);
    }
  }

  lemma CoveredBlock(d: Disk, ino: Inode, len: nat, bn: nat)
    requires Covered(d, ino, len) && bn < MAXFILE
    ensures bn * BSIZE < len ==> BlockOf(d, ino, bn) != 0
  {
  }

  // ---- the blocks a file takes ----------------------------------------------------------------

  /** divceil(x, BSIZE) */
  function BlockCount(x: nat): nat { if x == 0 then 0 else (x - 1) / BSIZE + 1 }

  /** How many blocks a file has when it has grown to this size. */
  function Takes(ino: Inode, size: nat): nat {
    BlockCount(size) + if ino.addrs[NDIRECT] != 0 || size > NDIRECT * BSIZE then 1 else 0
  }

  /** The file ino0 has been given the blocks for its bytes up to o, and no others. */
  ghost predicate Paid(g: Geo, d0: Disk, ino0: Inode, d: Disk, ino: Inode, o: nat) {
    var size := Max(ino0.size, o);
    && FreeCount(g, d) + Takes(ino0, size) == FreeCount(g, d0) + Takes(ino0, ino0.size)
    && (ino.addrs[NDIRECT] == 0 <==> ino0.addrs[NDIRECT] == 0 && size <= NDIRECT * BSIZE)
    && Tight(d, ino, size)
  }

  lemma PaidStart(g: Geo, d: Disk, ino: Inode, off: nat)
    requires Covered(d, ino, ino.size) && Tight(d, ino, ino.size) && off <= ino.size
    ensures Paid(g, d, ino, d, ino, off)
  {
    hide FreeCount;
    if ino.size > NDIRECT * BSIZE { HasIndirect(d, ino, ino.size); }
  }

  lemma HasIndirect(d: Disk, ino: Inode, size: nat)
    requires Covered(d, ino, size) && size > NDIRECT * BSIZE
    ensures ino.addrs[NDIRECT] != 0
  {
    assert BlockOf(d, ino, NDIRECT) != 0;
  }

  lemma {:induction false} TakesMore(ino: Inode, a: nat, b: nat)
    requires a <= b
    ensures Takes(ino, a) <= Takes(ino, b)
  {
  }

  /** What the next piece, of p bytes from o on, needs. */
  lemma NextLack(g: Geo, d0: Disk, ino0: Inode, d: Disk, ino: Inode, o: nat, p: nat)
    requires Paid(g, d0, ino0, d, ino, o) && Covered(d, ino, Max(ino0.size, o))
    requires 0 < p <= BSIZE - o % BSIZE && o + p <= MAXFILE * BSIZE
    ensures o / BSIZE < MAXFILE
    ensures Takes(ino0, Max(ino0.size, o + p)) == Takes(ino0, Max(ino0.size, o)) + Lack(d, ino, o / BSIZE)
  {
    hide FreeCount, BlockOf;
    var bn, size := o / BSIZE, Max(ino0.size, o);
    CeilNext(o, p, size);
    if bn * BSIZE < size {
      assert BlockOf(d, ino, bn) != 0;
      if bn >= NDIRECT { NoIndirect(d, ino, bn); }
    } else {
      assert BlockOf(d, ino, bn) == 0;
    }
  }

  lemma CeilNext(o: nat, p: nat, size: nat)
    requires 0 < p <= BSIZE - o % BSIZE && o <= size
    ensures var bn := o / BSIZE;
      && BlockCount(Max(size, o + p)) == (if bn * BSIZE < size then BlockCount(size) else BlockCount(size) + 1)
      && (bn * BSIZE < size ==> (Max(size, o + p) > NDIRECT * BSIZE <==> size > NDIRECT * BSIZE))
      && (size <= bn * BSIZE ==> (Max(size, o + p) > NDIRECT * BSIZE <==> bn >= NDIRECT))
  {
  }

  lemma PaidMore(g: Geo, d0: Disk, ino0: Inode, d: Disk, ino: Inode, o: nat, p: nat, d': Disk, ino': Inode)
    requires Paid(g, d0, ino0, d, ino, o) && Covered(d, ino, Max(ino0.size, o))
    requires 0 < p <= BSIZE - o % BSIZE && o + p <= MAXFILE * BSIZE
    requires FreeCount(g, d') == FreeCount(g, d) - Lack(d, ino, o / BSIZE)
    requires Covered(d', ino', Max(ino0.size, o + p)) && Tight(d', ino', Max(ino0.size, o + p))
    requires ino'.addrs[NDIRECT] != 0 && ino0.addrs[NDIRECT] == 0 ==> NDIRECT * BSIZE < Max(ino0.size, o + p)
    requires ino.addrs[NDIRECT] != 0 ==> ino'.addrs[NDIRECT] != 0
    ensures Paid(g, d0, ino0, d', ino', o + p)
  {
    NextLack(g, d0, ino0, d, ino, o, p);
    hide FreeCount, Lack, Covered, Tight;
    if Max(ino0.size, o + p) > NDIRECT * BSIZE { HasIndirect(d', ino', Max(ino0.size, o + p)); }
  }

  /** A piece more has been written to file n. */
  lemma PaidStep(g: Geo, d0: Disk, m0: seq<Inode>, o0: map<nat, Slot>, d: Disk, m: seq<Inode>,
                 d': Disk, m': seq<Inode>, o': map<nat, Slot>, n: nat, o: nat, p: nat)
    requires Own(g, d0, m0, o0, {}) && Own(g, d', m', o', {}) && OwnsMore(o0, o', n, o + p)
    requires n < |m0| == |m| == |m'| && Tight(d0, m0[n], m0[n].size)
    requires Paid(g, d0, m0[n], d, m[n], o) && Covered(d, m[n], Max(m0[n].size, o))
    requires 0 < p <= BSIZE - o % BSIZE && o + p <= MAXFILE * BSIZE
    requires FreeCount(g, d') == FreeCount(g, d) - Lack(d, m[n], o / BSIZE)
    requires Covered(d', m'[n], Max(m0[n].size, o + p))
    requires m[n].addrs[NDIRECT] != 0 ==> m'[n].addrs[NDIRECT] != 0
    ensures Paid(g, d0, m0[n], d', m'[n], o + p)
  {
    hide Own, OwnsMore, Tight, Paid, Covered, FreeCount, Lack;
    var hi := Max(m0[n].size, o + p);
    OwnsSame(o', n, hi);
    OwnsTwice(o0, o', o', n, o + p, hi);
    OwnsTo(g, d0, m0, o0, d', m', o', n, hi, m0[n].size);
    PaidMore(g, d0, m0[n], d, m[n], o, p, d', m'[n]);
  }

  /** Too few blocks for the next piece are too few for all. */
  lemma PaidShort(g: Geo, d0: Disk, ino0: Inode, d: Disk, ino: Inode, o: nat, p: nat, hi: nat)
    requires Paid(g, d0, ino0, d, ino, o) && Covered(d, ino, Max(ino0.size, o))
    requires 0 < p <= BSIZE - o % BSIZE && o + p <= hi <= MAXFILE * BSIZE
    requires FreeCount(g, d) < Lack(d, ino, o / BSIZE)
    ensures FreeCount(g, d0) + Takes(ino0, ino0.size) < Takes(ino0, Max(ino0.size, hi))
  {
    NextLack(g, d0, ino0, d, ino, o, p);
    TakesMore(ino0, Max(ino0.size, o + p), Max(ino0.size, hi));
    hide FreeCount, Lack, Covered, Tight, Takes;
  }

  // ---- writei ---------------------------------------------------------------------------------

  /** What writei has done when it has copied the first tot bytes of src to off. */
  ghost predicate Written(d: Disk, ino: Inode, c: seq<Byte>, off: nat, src: seq<Byte>, tot: nat) {
    && tot <= |src| && off <= |c| && Covered(d, ino, Max(|c|, off + tot))
    && forall p: nat :: p < Max(|c|, off + tot) ==>
         ByteAt(d, ino, p) == if off <= p < off + tot then src[p - off] else c[p]
  }

  /** The blocks logged in k blocks' worth of writing, f of them newly allocated. */
  ghost predicate Budget(g: Geo, dirty0: set<nat>, dirty: set<nat>, ino0: Inode, ino: Inode,
                         data: set<nat>, maps: set<nat>, k: nat, f: nat) {
    && dirty <= dirty0 + data + maps + Ind(ino)
    && |data| <= k && Bitmaps(g, maps)
    && |maps| <= f + (if ino0.addrs[NDIRECT] == 0 && ino.addrs[NDIRECT] != 0 then 1 else 0)
    && (ino0.addrs[NDIRECT] != 0 ==> ino.addrs[NDIRECT] == ino0.addrs[NDIRECT])
  }

  lemma WrittenMore(d: Disk, ino: Inode, c: seq<Byte>, off: nat, src: seq<Byte>, tot: nat, m: nat,
                    d': Disk, ino': Inode)
    requires Written(d, ino, c, off, src, tot) && 0 < m && tot + m <= |src|
    requires Covered(d', ino', Max(Max(|c|, off + tot), off + tot + m))
    requires forall p: nat :: p < Max(Max(|c|, off + tot), off + tot + m) ==>
      ByteAt(d', ino', p) ==
        if off + tot <= p < off + tot + m then src[tot..tot + m][p - (off + tot)] else ByteAt(d, ino, p)
    ensures Written(d', ino', c, off, src, tot + m)
  {
  }

  lemma WrittenDone(d: Disk, ino: Inode, c: seq<Byte>, off: nat, src: seq<Byte>)
    requires Written(d, ino, c, off, src, |src|) && ino.size == Max(|c|, off + |src|)
    ensures Content(d, ino) == Splice(c, off, src) && Covered(d, ino, ino.size)
  {
  }

  lemma BudgetMore(g: Geo, dirty0: set<nat>, dirty: set<nat>, ino0: Inode, ino: Inode,
                   data: set<nat>, maps: set<nat>, k: nat, f: nat,
                   dirty': set<nat>, ino': Inode, a: nat, maps1: set<nat>, f': nat)
    requires Budget(g, dirty0, dirty, ino0, ino, data, maps, k, f)
    requires Logged(g, dirty, dirty', ino, ino', a, maps1)
    requires f' == f + 1 || (maps1 == {} && ino' == ino && f' == f)
    ensures Budget(g, dirty0, dirty', ino0, ino', data + {a}, maps + maps1, k + 1, f')
  {
  }

  /** How far the loop of writei has come, and at what cost. */
  ghost predicate WriteInv(g: Geo, d0: Disk, m0: seq<Inode>, dirty0: set<nat>, d: Disk, m: seq<Inode>,
                           dirty: set<nat>, n: nat, off: nat, src: seq<Byte>, tot: nat,
                           data: set<nat>, maps: set<nat>, k: nat, f: nat) {
    && AddrsOnly(m0, m, n) && KeepsBut(d0, m0, d, m, n) && m0[n].size <= MAXFILE * BSIZE
    && Written(d, m[n], Content(d0, m0[n]), off, src, tot)
    && (off + tot <= m0[n].size ==> m == m0)
    && Budget(g, dirty0, dirty, m0[n], m[n], data, maps, k, f)
    && f <= k && (off % BSIZE != 0 && k > 0 ==> f < k) && Pace(off, |src|, tot, k)
  }

  lemma WriteInvStart(g: Geo, d: Disk, m: seq<Inode>, dirty: set<nat>, n: nat, off: nat, src: seq<Byte>)
    requires n < |m| && Covered(d, m[n], m[n].size) && m[n].size <= MAXFILE * BSIZE && off <= m[n].size
    ensures WriteInv(g, d, m, dirty, d, m, dirty, n, off, src, 0, {}, {}, 0, 0)
  {
  }

  /** What the loop needs before it calls WriteBlock for the next m bytes. */
  lemma WriteNext(g: Geo, d0: Disk, m0: seq<Inode>, dirty0: set<nat>, d: Disk, m: seq<Inode>,
                  dirty: set<nat>, n: nat, off: nat, src: seq<Byte>, tot: nat,
                  data: set<nat>, maps: set<nat>, k: nat, f: nat, len: nat)
    requires WriteInv(g, d0, m0, dirty0, d, m, dirty, n, off, src, tot, data, maps, k, f)
    requires tot < |src| && len == Max(m0[n].size, off + tot)
    ensures Covered(d, m[n], len) && Min(|src| - tot, BSIZE - (off + tot) % BSIZE) > 0
  {
  }

  /** What one block more costs, written or not. */
  lemma CostStep(g: Geo, d0: Disk, m0: seq<Inode>, dirty0: set<nat>, d: Disk, m: seq<Inode>,
                 dirty: set<nat>, n: nat, off: nat, src: seq<Byte>, tot: nat,
                 data: set<nat>, maps: set<nat>, k: nat, f: nat,
                 m': seq<Inode>, dirty': set<nat>, p: nat, a: nat, maps1: set<nat>) returns (f': nat)
    requires WriteInv(g, d0, m0, dirty0, d, m, dirty, n, off, src, tot, data, maps, k, f)
    requires tot < |src| && p == Min(|src| - tot, BSIZE - (off + tot) % BSIZE) && |m'| == |m|
    requires off + tot < Max(m0[n].size, off + tot) || (off + tot) % BSIZE != 0 ==> m' == m && maps1 == {}
    requires Logged(g, dirty, dirty', m[n], m'[n], a, maps1)
    ensures Budget(g, dirty0, dirty', m0[n], m'[n], data + {a}, maps + maps1, k + 1, f')
    ensures f' <= k + 1 && (off % BSIZE != 0 ==> f' <= k) && Pace(off, |src|, tot + p, k + 1)
  {
    hide KeepsBut, Written, Budget, Pace, Logged;
    PaceStep(off, |src|, tot, k, p);
    PaceFirst(off, |src|, tot, k);
    f' := if off + tot < m0[n].size || (off + tot) % BSIZE != 0 then f else f + 1;
    BudgetMore(g, dirty0, dirty, m0[n], m[n], data, maps, k, f, dirty', m'[n], a, maps1, f');
  }

  lemma WriteInvStep(g: Geo, d0: Disk, m0: seq<Inode>, dirty0: set<nat>, d: Disk, m: seq<Inode>,
                     dirty: set<nat>, n: nat, off: nat, src: seq<Byte>, tot: nat,
                     data: set<nat>, maps: set<nat>, k: nat, f: nat,
                     d': Disk, m': seq<Inode>, dirty': set<nat>, p: nat, a: nat, maps1: set<nat>)
    returns (f': nat)
    requires WriteInv(g, d0, m0, dirty0, d, m, dirty, n, off, src, tot, data, maps, k, f)
    requires tot < |src| && p == Min(|src| - tot, BSIZE - (off + tot) % BSIZE)
    requires AddrsOnly(m, m', n) && KeepsBut(d, m, d', m', n)
    requires var len := Max(m0[n].size, off + tot);
      && Covered(d', m'[n], Max(len, off + tot + p))
      && (forall q: nat :: q < Max(len, off + tot + p) ==>
            ByteAt(d', m'[n], q) ==
              if off + tot <= q < off + tot + p then src[tot..tot + p][q - (off + tot)] else ByteAt(d, m[n], q))
      && (off + tot < len || (off + tot) % BSIZE != 0 ==> m' == m && maps1 == {})
    requires Logged(g, dirty, dirty', m[n], m'[n], a, maps1)
    ensures
      WriteInv(g, d0, m0, dirty0, d', m', dirty', n, off, src, tot + p, data + {a}, maps + maps1, k + 1, f')
  {
    hide Covered, Written, KeepsBut, Budget, Pace, ByteAt, Logged, Content;
    var c := Content(d0, m0[n]);
    ContentSize(d0, m0[n]);
    WrittenMore(d, m[n], c, off, src, tot, p, d', m'[n]);
    ButTwice(d0, m0, d, m, d', m', n);
    f' := CostStep(g, d0, m0, dirty0, d, m, dirty, n, off, src, tot, data, maps, k, f, m', dirty', p, a, maps1);
    assert WriteInv(g, d0, m0, dirty0, d', m', dirty', n, off, src, tot + p, data + {a}, maps + maps1, k + 1, f');
  }

  lemma PaceFirst(off: nat, n: nat, tot: nat, k: nat)
    requires Pace(off, n, tot, k)
    ensures tot == 0 <==> k == 0
  {
  }

  /** There are blocks enough for the file to reach hi bytes, if it has not yet. */
  ghost predicate Affords(g: Geo, d: Disk, ino: Inode, hi: nat) {
    Takes(ino, Max(ino.size, hi)) <= FreeCount(g, d) + Takes(ino, ino.size)
  }

  /** The blocks of the file and the free blocks are as many as before, and a still larger file
      will need as many in all. */
  ghost predicate Conserves(g: Geo, d0: Disk, ino0: Inode, d: Disk, ino: Inode) {
    && FreeCount(g, d) + Takes(ino, ino.size) == FreeCount(g, d0) + Takes(ino0, ino0.size)
    && forall size: nat :: ino.size <= size ==> Takes(ino, size) == Takes(ino0, size)
  }

  /** The loop of writei. */
  method WriteBlocks(fs: FileSystem, inum: nat, off: nat, src: seq<Byte>)
    returns (ok: bool, tot: nat, ghost data: set<nat>, ghost maps: set<nat>, ghost k: nat, ghost f: nat)
    requires fs.Shape() && inum < fs.g.ninodes && Covered(fs.disk, fs.mem[inum], fs.mem[inum].size)
    requires fs.mem[inum].size <= MAXFILE * BSIZE && Tight(fs.disk, fs.mem[inum], fs.mem[inum].size)
    requires off <= fs.mem[inum].size && off + |src| <= MAXFILE * BSIZE
    modifies fs
    ensures fs.Shape() && fs.dinode == old(fs.dinode)
    ensures AllLogged(fs.g, old(fs.disk), old(fs.dirty), fs.disk, fs.dirty)
    ensures ok <==> Affords(fs.g, old(fs.disk), old(fs.mem)[inum], off + |src|)
    ensures ok ==> Paid(fs.g, old(fs.disk), old(fs.mem)[inum], fs.disk, fs.mem[inum], off + |src|)
    ensures !ok ==> Full(fs.g, fs.disk) && |old(fs.mem)| == |fs.mem|
    ensures !ok ==> Budget(fs.g, old(fs.dirty), fs.dirty, old(fs.mem)[inum], fs.mem[inum], data, maps, k, f)
    ensures !ok && |src| <= CHUNK ==> k <= 4 && f <= 3
    ensures ok ==> tot == |src| && WriteInv(fs.g, old(fs.disk), old(fs.mem), old(fs.dirty),
      fs.disk, fs.mem, fs.dirty, inum, off, src, tot, data, maps, k, f)
    ensures ok ==> OwnsMore(old(fs.owner), fs.owner, inum, off + |src|)
  {
    hide Own, KeepsBut, Full, BlockOf, ByteAt, Covered, WriteInv, Logged, OwnsMore, Tight, FreeCount, Lack, Paid,
      Budget, Affords, AllLogged, Taking;
    ghost var d0, m0, dirty0, o0 := fs.disk, fs.mem, fs.dirty, fs.owner;
    TakingStart(fs.g, d0, m0, o0, dirty0, inum, off);
    var n, o := |src|, off;
    tot, data, maps, k, f, ok := 0, {}, {}, 0, 0, true;
    WriteInvStart(fs.g, d0, m0, dirty0, inum, off, src);
    while tot < n
      invariant tot <= n && o == off + tot
      invariant fs.Shape() && fs.dinode == old(fs.dinode)
      invariant WriteInv(fs.g, d0, m0, dirty0, fs.disk, fs.mem, fs.dirty, inum, off, src, tot, data, maps, k, f)
      invariant Taking(fs.g, d0, m0, o0, dirty0, fs.disk, fs.mem, fs.owner, fs.dirty, inum, o)
    {
      ghost var d1, m1, dirty1, owner1, len := fs.disk, fs.mem, fs.dirty, fs.owner, Max(m0[inum].size, o);
      WriteNext(fs.g, d0, m0, dirty0, d1, m1, dirty1, inum, off, src, tot, data, maps, k, f, len);
      var m := Min(n - tot, BSIZE - o % BSIZE);
      ghost var a, maps1;
      ok, a, maps1 := WriteBlock(fs, inum, o, src[tot..tot + m], len);
      if !ok {
        TakingFails(fs.g, d0, m0, o0, dirty0, d1, m1, owner1, dirty1, fs.disk, fs.dirty, inum, o, m, off + n);
        f := CostStep(fs.g, d0, m0, dirty0, d1, m1, dirty1, inum, off, src, tot, data, maps, k, f,
                      fs.mem, fs.dirty, m, a, maps1);
        data, maps, k := data + {a}, maps + maps1, k + 1;
        PaceTotal(off, n, tot + m, k, f);
        return;
      }
      TakingMore(fs.g, d0, m0, o0, dirty0, d1, m1, owner1, dirty1, fs.disk, fs.mem, fs.owner, fs.dirty, inum, o, m, a,
                 maps1);
      f := WriteInvStep(fs.g, d0, m0, dirty0, d1, m1, dirty1, inum, off, src, tot, data, maps, k, f,
                   fs.disk, fs.mem, fs.dirty, m, a, maps1);
      data, maps, k := data + {a}, maps + maps1, k + 1;
      tot, o := tot + m, o + m;
    }
    TakingEnds(fs.g, d0, m0, o0, dirty0, fs.disk, fs.mem, fs.owner, fs.dirty, inum, o);
  }

  /** What the loop has taken and logged when it has come to byte o of file n. */
  ghost predicate Taking(g: Geo, d0: Disk, m0: seq<Inode>, o0: map<nat, Slot>, dirty0: set<nat>,
                         d: Disk, m: seq<Inode>, owner: map<nat, Slot>, dirty: set<nat>, n: nat, o: nat)
    requires n < |m0| && n < |m|
  {
    OwnsMore(o0, owner, n, o) && Paid(g, d0, m0[n], d, m[n], o) && AllLogged(g, d0, dirty0, d, dirty)
  }

  lemma TakingStart(g: Geo, d: Disk, m: seq<Inode>, owner: map<nat, Slot>, dirty: set<nat>, n: nat, off: nat)
    requires n < |m| && Covered(d, m[n], m[n].size) && Tight(d, m[n], m[n].size) && off <= m[n].size
    ensures Taking(g, d, m, owner, dirty, d, m, owner, dirty, n, off)
  {
    hide OwnsMore, Paid, AllLogged, Covered, Tight;
    OwnsSame(owner, n, off);
    NoneLogged(g, d, dirty);
    PaidStart(g, d, m[n], off);
  }

  lemma TakingMore(g: Geo, d0: Disk, m0: seq<Inode>, o0: map<nat, Slot>, dirty0: set<nat>,
                   d1: Disk, m1: seq<Inode>, o1: map<nat, Slot>, dirty1: set<nat>,
                   d: Disk, m: seq<Inode>, owner: map<nat, Slot>, dirty: set<nat>, n: nat, o: nat, p: nat,
                   a: nat, maps: set<nat>)
    requires n < |m0| == |m1| == |m| && Taking(g, d0, m0, o0, dirty0, d1, m1, o1, dirty1, n, o)
    requires Own(g, d0, m0, o0, {}) && Own(g, d, m, owner, {}) && Tight(d0, m0[n], m0[n].size)
    requires OwnsMore(o1, owner, n, o + p) && AllLogged(g, d1, dirty1, d, dirty)
    requires Logged(g, dirty1, dirty, m1[n], m[n], a, maps)
    requires 0 < p <= BSIZE - o % BSIZE && o + p <= MAXFILE * BSIZE && Covered(d1, m1[n], Max(m0[n].size, o))
    requires FreeCount(g, d) == FreeCount(g, d1) - Lack(d1, m1[n], o / BSIZE)
    requires Covered(d, m[n], Max(m0[n].size, o + p))
    ensures Taking(g, d0, m0, o0, dirty0, d, m, owner, dirty, n, o + p)
  {
    hide Own, OwnsMore, Paid, AllLogged, Covered, Tight, FreeCount, Lack, Logged;
    LoggedTwice(g, d0, dirty0, d1, dirty1, d, dirty);
    OwnsTwice(o0, o1, owner, n, o, o + p);
    KeepsIndirect(g, dirty1, dirty, m1[n], m[n], a, maps);
    PaidStep(g, d0, m0, o0, d1, m1, d, m, owner, n, o, p);
  }

  lemma TakingFails(g: Geo, d0: Disk, m0: seq<Inode>, o0: map<nat, Slot>, dirty0: set<nat>,
                    d1: Disk, m1: seq<Inode>, o1: map<nat, Slot>, dirty1: set<nat>, d: Disk, dirty: set<nat>,
                    n: nat, o: nat, p: nat, hi: nat)
    requires n < |m0| == |m1| && Taking(g, d0, m0, o0, dirty0, d1, m1, o1, dirty1, n, o)
    requires AllLogged(g, d1, dirty1, d, dirty) && Covered(d1, m1[n], Max(m0[n].size, o))
    requires 0 < p <= BSIZE - o % BSIZE && o + p <= hi <= MAXFILE * BSIZE
    requires o / BSIZE < MAXFILE && FreeCount(g, d1) < Lack(d1, m1[n], o / BSIZE)
    ensures AllLogged(g, d0, dirty0, d, dirty) && !Affords(g, d0, m0[n], hi)
  {
    hide OwnsMore, Paid, AllLogged, Covered, FreeCount, Lack;
    LoggedTwice(g, d0, dirty0, d1, dirty1, d, dirty);
    PaidShort(g, d0, m0[n], d1, m1[n], o, p, hi);
  }

  lemma TakingEnds(g: Geo, d0: Disk, m0: seq<Inode>, o0: map<nat, Slot>, dirty0: set<nat>,
                   d: Disk, m: seq<Inode>, owner: map<nat, Slot>, dirty: set<nat>, n: nat, o: nat)
    requires n < |m0| && n < |m| && Taking(g, d0, m0, o0, dirty0, d, m, owner, dirty, n, o)
    ensures OwnsMore(o0, owner, n, o) && Paid(g, d0, m0[n], d, m[n], o) && AllLogged(g, d0, dirty0, d, dirty)
    ensures Affords(g, d0, m0[n], o)
  {
    hide OwnsMore, Paid, AllLogged;
    PaidAll(g, d0, m0[n], d, m[n], o);
  }

  lemma WriteFails(g: Geo, d: Disk, ino: Inode, hi: nat)
    requires FreeCount(g, d) + Takes(ino, ino.size) < Takes(ino, Max(ino.size, hi))
    ensures !Affords(g, d, ino, hi)
  {
  }

  lemma PaidAll(g: Geo, d0: Disk, ino0: Inode, d: Disk, ino: Inode, o: nat)
    requires Paid(g, d0, ino0, d, ino, o)
    ensures Affords(g, d0, ino0, o)
  {
  }

  lemma KeepsIndirect(g: Geo, dirty0: set<nat>, dirty: set<nat>, ino0: Inode, ino: Inode, a: nat, maps: set<nat>)
    requires Logged(g, dirty0, dirty, ino0, ino, a, maps)
    ensures ino0.addrs[NDIRECT] != 0 ==> ino.addrs[NDIRECT] != 0
  {
  }

  /** writei: the file becomes the old bytes with src laid over them at off. */
  method Writei(fs: FileSystem, inum: nat, off: nat, src: seq<Byte>)
    returns (r: WriteResult)
    requires fs.Valid() && inum < fs.g.ninodes && fs.mem[inum].kind != 0
    requires off < UINT && |src| < UINT
    modifies fs
    ensures r.WriteError? <==>
      off > old(fs.mem)[inum].size || off + |src| >= UINT || off + |src| > MAXFILE * BSIZE
    ensures r.WriteError? ==> fs.disk == old(fs.disk) && fs.mem == old(fs.mem) && fs.dinode == old(fs.dinode)
    ensures r.WriteError? ==> fs.dirty == old(fs.dirty) && fs.owner == old(fs.owner)
    ensures r.Panic? <==> !r.WriteError? && !Affords(fs.g, old(fs.disk), old(fs.mem)[inum], off + |src|)
    ensures r.Panic? ==> Full(fs.g, fs.disk)
    ensures r.Wrote? ==> r.n == |src| && fs.Valid()
    ensures r.Wrote? ==> Conserves(fs.g, old(fs.disk), old(fs.mem)[inum], fs.disk, fs.mem[inum])
    ensures r.Wrote? ==> KeepsBut(old(fs.disk), old(fs.mem), fs.disk, fs.mem, inum)
    ensures r.Wrote? ==> fs.mem[inum] == old(fs.mem)[inum].(addrs := fs.mem[inum].addrs, size := fs.mem[inum].size)
    ensures r.Wrote? ==>
      && off <= old(fs.mem)[inum].size <= MAXFILE * BSIZE && fs.mem[inum].size <= MAXFILE * BSIZE
      && Content(fs.disk, fs.mem[inum]) == Splice(Content(old(fs.disk), old(fs.mem)[inum]), off, src)
    ensures r.Wrote? && old(fs.dinode) == old(fs.mem) ==> fs.dinode == fs.mem
    ensures AllLogged(fs.g, old(fs.disk), old(fs.dirty), fs.disk, fs.dirty)
    ensures InodesLogged(fs.g, old(fs.dinode), fs.dinode, fs.dirty)
    ensures old(fs.dirty) == {} && |src| <= CHUNK ==> |fs.dirty| <= LogProtocol.MAXOPBLOCKS
    ensures old(fs.dirty) == {} && |src| <= CHUNK && fs.g.size <= BPB ==> |fs.dirty| <= 7
  {
    hide Own, KeepsBut, Full, NoHoles, AllTight, OwnsMore, FreeClean, BlockOf, ByteAt, Covered, Written, Budget,
      Bitmaps, Pace, Splice, FreeCount, Paid, Affords, Takes,
      Conserves, AllLogged;
    ghost var d0, m0 := fs.disk, fs.mem;
    NoneLogged(fs.g, fs.disk, fs.dirty);
    FileCovered(d0, m0, inum);
    FileTight(d0, m0, inum);
    ghost var c := Content(d0, m0[inum]);
    if off > fs.mem[inum].size || (off + |src|) % UINT < off { return WriteError; }
    if off + |src| > MAXFILE * BSIZE { return WriteError; }
    ghost var data, maps, k, f;
    var ok, tot;
    ok, tot, data, maps, k, f := WriteBlocks(fs, inum, off, src);
    if !ok {
      BudgetTotal(fs.g, old(fs.dirty), fs.dirty, fs.dirty, m0[inum], fs.mem[inum], data, maps, k, f, {});
      return Panic;
    }
    var n, o := |src|, off + tot;
    ContentSize(d0, m0[inum]);
    ghost var m1, before := fs.mem, fs.dirty;
    if n > 0 && o > fs.mem[inum].size {
      fs.mem := fs.mem[inum := fs.mem[inum].(size := o)];
      InodeBlock(fs.g, inum);
      MoreLogged(fs.g, d0, old(fs.dirty), fs.disk, fs.dirty, IBLOCK(fs.g, inum));
      fs.Iupdate(inum);
    }
    assert fs.mem == m1[inum := m1[inum].(size := Max(|c|, off + n))];
    WriteEnds(fs.g, d0, m0, fs.disk, m1, fs.mem, fs.owner, inum, c, off, src);
    OwnsTight(fs.g, d0, m0, old(fs.owner), fs.disk, m1, fs.owner, inum, off + n, fs.mem);
    PaceTotal(off, n, n, k, f);
    BudgetTotal(fs.g, old(fs.dirty), before, fs.dirty, m0[inum], m1[inum], data, maps, k, f, {IBLOCK(fs.g, inum)});
    PaidWrote(fs.g, d0, m0[inum], fs.disk, m1[inum], fs.mem[inum], off + n);
    return Wrote(tot);
  }

  lemma FileTight(d: Disk, m: seq<Inode>, n: nat)
    requires AllTight(d, m) && n < |m|
    ensures Tight(d, m[n], m[n].size)
  {
  }

  lemma PaidWrote(g: Geo, d0: Disk, ino0: Inode, d: Disk, ino1: Inode, ino: Inode, o: nat)
    requires Paid(g, d0, ino0, d, ino1, o) && ino == ino1.(size := Max(ino0.size, o))
    ensures Conserves(g, d0, ino0, d, ino)
  {
    hide FreeCount, BlockCount;
  }

  /** After k blocks the last byte written is in the k-th block from off on. */
  predicate Pace(off: nat, n: nat, tot: nat, k: nat) {
    && tot <= n && (tot == 0 ==> k == 0)
    && (tot > 0 ==> k >= 1 && (off + tot - 1) / BSIZE == off / BSIZE + k - 1)
    && (0 < tot < n ==> (off + tot) % BSIZE == 0)
  }

  lemma PaceStep(off: nat, n: nat, tot: nat, k: nat, m: nat)
    requires Pace(off, n, tot, k) && tot < n && m == Min(n - tot, BSIZE - (off + tot) % BSIZE)
    ensures 0 < m && Pace(off, n, tot + m, k + 1)
  {
  }

  lemma PaceTotal(off: nat, n: nat, tot: nat, k: nat, f: nat)
    requires Pace(off, n, tot, k) && f <= k && (off % BSIZE != 0 && k > 0 ==> f < k)
    ensures n <= CHUNK ==> k <= 4 && f <= 3
  {
  }

  lemma ContentSize(d: Disk, ino: Inode)
    requires ino.size <= MAXFILE * BSIZE
    ensures |Content(d, ino)| == ino.size
  {
  }

  lemma FileCovered(d: Disk, m: seq<Inode>, n: nat)
    requires NoHoles(d, m) && n < |m|
    ensures Covered(d, m[n], m[n].size) && m[n].size <= MAXFILE * BSIZE
  {
  }

  /** The size is set last: no holes appear, and no other inode is touched. */
  lemma WriteEnds(g: Geo, d0: Disk, m0: seq<Inode>, d: Disk, m1: seq<Inode>, m: seq<Inode>,
                  owner: map<nat, Slot>, n: nat, c: seq<Byte>, off: nat, src: seq<Byte>)
    requires Own(g, d, m1, owner, {}) && KeepsBut(d0, m0, d, m1, n) && AddrsOnly(m0, m1, n)
    requires NoHoles(d0, m0) && FreeClean(m0) && m0[n].kind != 0
    requires m == m1[n := m1[n].(size := Max(|c|, off + |src|))]
    requires Written(d, m1[n], c, off, src, |src|)
    ensures Own(g, d, m, owner, {}) && KeepsBut(d0, m0, d, m, n) && NoHoles(d, m) && FreeClean(m)
    ensures m[n].size <= MAXFILE * BSIZE && off <= |c| && Content(d, m[n]) == Splice(c, off, src)
  {
    hide Own, NoHoles, BlockOf, ByteAt;
    SameAddrs(g, d, m1, m, owner, n);
    SizeOnly(d, m1[n], m[n], c, off, src);
    WrittenDone(d, m[n], c, off, src);
    ButHoles(d0, m0, d, m, n);
  }

  lemma SizeOnly(d: Disk, i1: Inode, i2: Inode, c: seq<Byte>, off: nat, src: seq<Byte>)
    requires Written(d, i1, c, off, src, |src|) && i2.addrs == i1.addrs
    ensures Written(d, i2, c, off, src, |src|)
  {
    forall b: nat | b < MAXFILE ensures BlockOf(d, i2, b) == BlockOf(d, i1, b) {}
    forall p: nat | p < MAXFILE * BSIZE ensures ByteAt(d, i2, p) == ByteAt(d, i1, p) {}
  }

  lemma BudgetTotal(g: Geo, dirty0: set<nat>, before: set<nat>, dirty: set<nat>, ino0: Inode, ino: Inode,
                    data: set<nat>, maps: set<nat>, k: nat, f: nat, last: set<nat>)
    requires Budget(g, dirty0, before, ino0, ino, data, maps, k, f)
    requires dirty <= before + last && |last| <= 1
    ensures ValidGeo(g) && dirty0 == {} && k <= 4 && f <= 3 ==> |dirty| <= LogProtocol.MAXOPBLOCKS
    ensures ValidGeo(g) && dirty0 == {} && k <= 4 && g.size <= BPB ==> |dirty| <= 7
  {
    if ValidGeo(g) && dirty0 == {} {
      assert dirty <= data + maps + Ind(ino) + last;
      assert |Ind(ino)| <= 1;
      if g.size <= BPB { FewMaps(g, maps); }
      hide Budget, Bitmaps, Ind;
      FourSets(dirty, data, maps, Ind(ino), last);
    }
  }

  lemma FewMaps(g: Geo, maps: set<nat>)
    requires ValidGeo(g) && g.size <= BPB && Bitmaps(g, maps)
    ensures |maps| <= 1
  {
    assert maps <= {g.bmapstart};
    Subset(maps, {g.bmapstart});
  }

  lemma FourSets(s: set<nat>, a: set<nat>, b: set<nat>, c: set<nat>, d: set<nat>)
    requires s <= a + b + c + d
    ensures |s| <= |a| + |b| + |c| + |d|
  {
    Subset(s, a + b + c + d);
    assert |a + b + c + d| <= |a + b + c| + |d| && |a + b + c| <= |a + b| + |c| && |a + b| <= |a| + |b|;
  }

  lemma {:induction false} Subset(a: set<nat>, b: set<nat>)
    requires a <= b
    ensures |a| <= |b|
  {
    assert |b| == |a| + |b - a| by { assert b == a + (b - a); }
  }

  // ---- readi ----------------------------------------------------------------------------------

  /** readi: the bytes of the file from off on, at most n; the file system is left as it was. */
  method Readi(fs: FileSystem, inum: nat, off: nat, n: nat) returns (r: ReadResult)
    requires fs.Valid() && inum < fs.g.ninodes && off < UINT && n < UINT
    modifies fs
    ensures fs.disk == old(fs.disk) && fs.mem == old(fs.mem) && fs.dinode == old(fs.dinode)
    ensures fs.dirty == old(fs.dirty) && fs.Valid()
    ensures r.ReadError? <==> off > fs.mem[inum].size || off + n >= UINT
    ensures r.Data? ==>
      && off <= fs.mem[inum].size <= MAXFILE * BSIZE
      && r.bytes == Content(fs.disk, fs.mem[inum])[off..Min(off + n, fs.mem[inum].size)]
  {
    hide Own, NoHoles, AllTight, FreeClean, Covered, ByteAt, Content;
    ghost var d, m := fs.disk, fs.mem;
    FileCovered(d, m, inum);
    ContentSize(d, m[inum]);
    if off > fs.mem[inum].size || (off + n) % UINT < off { return ReadError; }
    var n' := if off + n > fs.mem[inum].size then fs.mem[inum].size - off else n;
    ghost var c := Content(d, m[inum]);
    var tot, o, bytes := 0, off, [];
    while tot < n'
      invariant tot <= n' && o == off + tot && bytes == c[off..o]
      invariant fs.disk == d && fs.mem == m && fs.dinode == old(fs.dinode) && fs.dirty == old(fs.dirty)
      invariant fs.Shape()
    {
      var k := Min(n' - tot, BSIZE - o % BSIZE);
      var piece := ReadBlock(fs, inum, o, k);
      bytes := bytes + piece;
      assert c[off..o] + c[o..o + k] == c[off..o + k];
      tot, o := tot + k, o + k;
    }
    return Data(bytes);
  }

  /** The body of readi's loop: k bytes of one block. */
  method ReadBlock(fs: FileSystem, inum: nat, o: nat, k: nat) returns (piece: seq<Byte>)
    requires fs.Shape() && inum < fs.g.ninodes && Covered(fs.disk, fs.mem[inum], fs.mem[inum].size)
    requires fs.mem[inum].size <= MAXFILE * BSIZE && o + k <= fs.mem[inum].size && 0 < k <= BSIZE - o % BSIZE
    modifies fs
    ensures fs.Shape() && fs.disk == old(fs.disk) && fs.mem == old(fs.mem) && fs.dinode == old(fs.dinode)
    ensures fs.dirty == old(fs.dirty) && piece == Content(fs.disk, fs.mem[inum])[o..o + k]
  {
    hide Own, Keeps, KeepsBut, OwnsMore, BlockOf, Bitmaps, Full, Logged, Covered, FreeCount, Lack;
    ghost var d, m := fs.disk, fs.mem;
    var bn := o / BSIZE;
    SameSpot(o);
    CoveredBlock(d, m[inum], m[inum].size, bn);
    var a;
    ghost var maps;
    a, maps := fs.Bmap(inum, bn);
    DataOwned(fs.g, fs.disk, fs.mem, fs.owner, inum, bn);
    ReadPiece(d, m[inum], o, k);
    piece := fs.disk[a][o % BSIZE..o % BSIZE + k];
  }

  lemma ReadPiece(d: Disk, ino: Inode, o: nat, k: nat)
    requires ino.size <= MAXFILE * BSIZE && o + k <= ino.size && 0 < k <= BSIZE - o % BSIZE
    requires BlockOf(d, ino, o / BSIZE) < |d|
    ensures d[BlockOf(d, ino, o / BSIZE)][o % BSIZE..o % BSIZE + k] == Content(d, ino)[o..o + k]
  {
  }

  /** Reading back what was just written gives the bytes that were written. */
  lemma SpliceRead(c: seq<Byte>, off: nat, src: seq<Byte>)
    requires off <= |c|
    ensures Splice(c, off, src)[off..off + |src|] == src
    ensures Splice(c, off, src)[..off] == c[..off]
    ensures off + |src| < |c| ==> Splice(c, off, src)[off + |src|..] == c[off + |src|..]
    ensures |Splice(c, off, src)| == Max(|c|, off + |src|)
  {
  }

  // ---- filewrite --------------------------------------------------------------------------------

  class File {
    var writable: bool
    var ip: nat
    var off: nat
  }

  datatype Outcome = Panicked | Return(value: int)

  lemma SpliceTwice(c: seq<Byte>, off: nat, a: seq<Byte>, b: seq<Byte>)
    requires off <= |c|
    ensures off + |a| <= |Splice(c, off, a)|
    ensures Splice(Splice(c, off, a), off + |a|, b) == Splice(c, off, a + b)
  {
  }

  /** When filewrite fails: the file is not writable, the offset lies past the end of the
      file, or the file would grow past its largest size. */
  predicate Refused(writable: bool, off: nat, size: nat, n: nat) {
    !writable || (n > 0 && (off > size || off + n > MAXFILE * BSIZE))
  }

  /** The byte up to which filewrite writes: a chunk that would go past the largest size is left
      out, with all after it. */
  function Reach(off: nat, n: nat): nat {
    if off + n <= MAXFILE * BSIZE || off > MAXFILE * BSIZE then off + n
    else off + (MAXFILE * BSIZE - off) / CHUNK * CHUNK
  }

  /** filewrite: the whole of src, in chunks that each fit one operation on the log. Each
      element of ops is what one operation gave to log_write; d1 and m1 are the disk and the
      inodes as the last operation that ended has left them. It panics exactly when there are not
      the blocks for the chunks that it goes on to write. */
  method FileWrite(fs: FileSystem, f: File, src: seq<Byte>)
    returns (r: Outcome, ghost ops: seq<set<nat>>, ghost d1: Disk, ghost m1: seq<Inode>)
    requires fs.Valid() && f.ip < fs.g.ninodes && fs.mem[f.ip].kind != 0 && fs.dinode == fs.mem
    requires f.off < UINT && |src| < UINT / 2
    modifies fs, f`off
    ensures r.Panicked? <==>
      && f.writable && old(f.off) <= old(fs.mem)[f.ip].size
      && !Affords(fs.g, old(fs.disk), old(fs.mem)[f.ip], Reach(old(f.off), |src|))
    ensures r.Panicked? ==> Full(fs.g, fs.disk)
    ensures r.Return? ==> fs.disk == d1 && fs.mem == m1
    ensures r.Return? ==> fs.Valid() && fs.dinode == fs.mem && fs.mem[f.ip].kind != 0
    ensures r.Return? ==> r.value == |src| || r.value == -1
    ensures r.Return? ==> (r.value == -1 <==> Refused(f.writable, old(f.off), old(fs.mem)[f.ip].size, |src|))
    ensures r.Return? ==>
      f.off == if f.writable && old(f.off) <= old(fs.mem)[f.ip].size then Reach(old(f.off), |src|) else old(f.off)
    ensures r.Return? && r.value == |src| ==> f.off == old(f.off) + |src|
    ensures old(f.off) <= f.off <= old(f.off) + |src|
    ensures FileLeft(fs.g, old(fs.disk), old(fs.mem), d1, m1, f.ip, old(f.off), src, f.off - old(f.off))
    ensures OpsFit(fs.g, ops)
  {
    hide Own, KeepsBut, NoHoles, AllTight, FreeClean, BlockOf, Full, Content, Splice, Conserves, Affords, Reach, Chunks,
      ChunksWritten, FileLeft, OpsFit, AllLogged, InodesLogged, Tight;
    ops, d1, m1 := [], fs.disk, fs.mem;
    ghost var g, d0, m0, off0 := fs.g, fs.disk, fs.mem, f.off;
    WriteStart(g, d0, m0, f.ip, off0, src);
    if !f.writable { return Return(-1), ops, d1, m1; }
    var i, n := 0, |src|;
    while i < n
      invariant fs.Valid() && fs.mem[f.ip].kind != 0 && fs.dinode == fs.mem
      invariant i <= n && f.off == off0 + i && d1 == fs.disk && m1 == fs.mem && |m1| == |m0|
      invariant Chunks(g, d0, m0[f.ip], d1, m1[f.ip], off0, src, i) && OpsFit(g, ops)
      invariant FileLeft(g, d0, m0, d1, m1, f.ip, off0, src, i)
    {
      ChunkFits(g, d0, m0[f.ip], d1, m1, f.ip, off0, src, i);
      var n1 := Min(n - i, CHUNK);
      fs.dirty := {};
      var w := Writei(fs, f.ip, f.off, src[i..i + n1]);
      OpsMore(g, ops, fs.dirty);
      ops := ops + [fs.dirty];
      if w.Panic? {
        ChunkFails(g, d0, m0[f.ip], d1, m1[f.ip], off0, src, i, n1);
        return Panicked, ops, d1, m1;
      }
      if w.WriteError? {
        ChunksEnd(g, d0, m0[f.ip], d1, m1[f.ip], off0, src, i);
        return Return(-1), ops, d1, m1;
      }
      f.off := f.off + w.n;
      ChunkLeft(g, d0, m0, d1, m1, fs.disk, fs.mem, f.ip, off0, src, i, n1);
      d1, m1 := fs.disk, fs.mem;
      i := i + w.n;
    }
    ChunkFits(g, d0, m0[f.ip], d1, m1, f.ip, off0, src, i);
    ChunksEnd(g, d0, m0[f.ip], d1, m1[f.ip], off0, src, i);
    return Return(n), ops, d1, m1;
  }

  /** What filewrite has left when i bytes of src have been written at off: nothing has changed but
      the file, and the file is the old one with those bytes laid over it. */
  ghost predicate FileLeft(g: Geo, d0: Disk, m0: seq<Inode>, d: Disk, m: seq<Inode>, n: nat, off: nat, src: seq<Byte>,
                           i: nat)
    requires n < |m0|
  {
    && i <= |src| && |m| == |m0| && KeepsBut(d0, m0, d, m, n) && NoHoles(d, m) && Conserves(g, d0, m0[n], d, m[n])
    && (i == 0 ==> m == m0 && d == d0)
    && (i > 0 ==> ChunksWritten(d0, m0[n], d, m[n], off, src, i))
  }

  /** Each operation gives the log no more than one may, and on a disk with one bitmap block 7. */
  ghost predicate OpsFit(g: Geo, ops: seq<set<nat>>) {
    && (forall i :: 0 <= i < |ops| ==> |ops[i]| <= LogProtocol.MAXOPBLOCKS)
    && (g.size <= BPB ==> forall i :: 0 <= i < |ops| ==> |ops[i]| <= 7)
  }

  lemma OpsMore(g: Geo, ops: seq<set<nat>>, op: set<nat>)
    requires OpsFit(g, ops) && |op| <= LogProtocol.MAXOPBLOCKS && (g.size <= BPB ==> |op| <= 7)
    ensures OpsFit(g, ops + [op])
  {
  }

  lemma WriteStart(g: Geo, d: Disk, m: seq<Inode>, n: nat, off: nat, src: seq<Byte>)
    requires n < |m| && NoHoles(d, m)
    ensures Chunks(g, d, m[n], d, m[n], off, src, 0) && FileLeft(g, d, m, d, m, n, off, src, 0) && OpsFit(g, [])
    ensures m[n].size <= MAXFILE * BSIZE
  {
    hide KeepsBut, NoHoles, Conserves, Chunks;
    SelfBut(d, m, n);
    NoChunks(g, d, m[n], off, src);
    FileCovered(d, m, n);
  }

  /** Where the next chunk goes. */
  lemma ChunkFits(g: Geo, d0: Disk, ino0: Inode, d: Disk, m: seq<Inode>, n: nat, off0: nat, src: seq<Byte>, i: nat)
    requires n < |m| && NoHoles(d, m) && Chunks(g, d0, ino0, d, m[n], off0, src, i)
    ensures m[n].size <= MAXFILE * BSIZE && ino0.size <= MAXFILE * BSIZE
    ensures i > 0 ==> off0 + i <= m[n].size && off0 <= ino0.size
  {
    hide NoHoles, Conserves, Content, Splice, Covered;
    FileCovered(d, m, n);
    ChunksAre(g, d0, ino0, d, m[n], off0, src, i);
  }

  lemma ChunkLeft(g: Geo, d0: Disk, m0: seq<Inode>, d1: Disk, m1: seq<Inode>, d: Disk, m: seq<Inode>, n: nat, off0: nat,
                  src: seq<Byte>, i: nat, n1: nat)
    requires n < |m0| == |m1| == |m| && Chunks(g, d0, m0[n], d1, m1[n], off0, src, i)
    requires FileLeft(g, d0, m0, d1, m1, n, off0, src, i) && KeepsBut(d1, m1, d, m, n) && NoHoles(d, m)
    requires Conserves(g, d1, m1[n], d, m[n])
    requires i < |src| && n1 == Min(|src| - i, CHUNK) && off0 + i + n1 <= MAXFILE * BSIZE
    requires off0 + i <= m1[n].size <= MAXFILE * BSIZE && m[n].size <= MAXFILE * BSIZE
    requires Content(d, m[n]) == Splice(Content(d1, m1[n]), off0 + i, src[i..i + n1])
    ensures Chunks(g, d0, m0[n], d, m[n], off0, src, i + n1) && FileLeft(g, d0, m0, d, m, n, off0, src, i + n1)
  {
    hide KeepsBut, NoHoles, Conserves, Content, Splice, Chunks, ChunksWritten;
    ButTwice(d0, m0, d1, m1, d, m, n);
    ChunksAre(g, d0, m0[n], d1, m1[n], off0, src, i);
    ChunkDone(g, d0, m0[n], d1, m1[n], d, m[n], off0, src, i, n1);
    ChunksAre(g, d0, m0[n], d, m[n], off0, src, i + n1);
  }

  lemma SelfBut(d: Disk, m: seq<Inode>, x: nat)
    ensures KeepsBut(d, m, d, m, x)
  {
  }

  /** i bytes of whole chunks have been written, and the blocks for them taken. */
  ghost predicate Chunks(g: Geo, d0: Disk, ino0: Inode, d: Disk, ino: Inode, off0: nat, src: seq<Byte>, i: nat) {
    && (i % CHUNK == 0 || i == |src|) && Conserves(g, d0, ino0, d, ino)
    && (if i == 0 then d == d0 && ino == ino0 else ChunksWritten(d0, ino0, d, ino, off0, src, i))
  }

  ghost predicate ChunksWritten(d0: Disk, ino0: Inode, d: Disk, ino: Inode, off0: nat, src: seq<Byte>, i: nat) {
    && i <= |src| && off0 <= ino0.size <= MAXFILE * BSIZE && ino.size <= MAXFILE * BSIZE
    && ino.size == Max(ino0.size, off0 + i)
    && Content(d, ino) == Splice(Content(d0, ino0), off0, src[..i])
  }

  lemma ChunkDone(g: Geo, d0: Disk, ino0: Inode, d1: Disk, ino1: Inode, d2: Disk, ino2: Inode,
                  off0: nat, src: seq<Byte>, i: nat, n1: nat)
    requires i % CHUNK == 0 && Conserves(g, d0, ino0, d1, ino1) && Conserves(g, d1, ino1, d2, ino2)
    requires if i == 0 then d1 == d0 && ino1 == ino0 else ChunksWritten(d0, ino0, d1, ino1, off0, src, i)
    requires i < |src| && n1 == Min(|src| - i, CHUNK) && off0 + i + n1 <= MAXFILE * BSIZE
    requires off0 + i <= ino1.size <= MAXFILE * BSIZE && ino2.size <= MAXFILE * BSIZE
    requires Content(d2, ino2) == Splice(Content(d1, ino1), off0 + i, src[i..i + n1])
    ensures Chunks(g, d0, ino0, d2, ino2, off0, src, i + n1) && ChunksWritten(d0, ino0, d2, ino2, off0, src, i + n1)
  {
    hide ByteAt, Content, Splice, FreeCount, Takes, Conserves;
    ChunkNext(i, |src|, n1);
    ConservesTwice(g, d0, ino0, d1, ino1, d2, ino2) by { assert ino1.size <= ino2.size by {
      ContentSize(d1, ino1);
      ContentSize(d2, ino2);
      SpliceRead(Content(d1, ino1), off0 + i, src[i..i + n1]);
    } }
    ContentSize(d0, ino0);
    ContentSize(d1, ino1);
    ContentSize(d2, ino2);
    SpliceRead(Content(d1, ino1), off0 + i, src[i..i + n1]);
    SpliceNext(Content(d0, ino0), Content(d1, ino1), off0, src, i, n1);
  }

  lemma ChunkNext(i: nat, n: nat, n1: nat)
    requires i % CHUNK == 0 && i < n && n1 == Min(n - i, CHUNK)
    ensures (i + n1) % CHUNK == 0 || i + n1 == n
  {
    assert CHUNK == 1536;
  }

  lemma ConservesTwice(g: Geo, d0: Disk, ino0: Inode, d1: Disk, ino1: Inode, d2: Disk, ino2: Inode)
    requires Conserves(g, d0, ino0, d1, ino1) && Conserves(g, d1, ino1, d2, ino2) && ino1.size <= ino2.size
    ensures Conserves(g, d0, ino0, d2, ino2)
  {
    hide FreeCount, Takes;
  }

  lemma SpliceNext(c0: seq<Byte>, c: seq<Byte>, off0: nat, src: seq<Byte>, i: nat, n1: nat)
    requires off0 <= |c0| && i + n1 <= |src| && off0 + i <= |c|
    requires c == if i == 0 then c0 else Splice(c0, off0, src[..i])
    ensures Splice(c, off0 + i, src[i..i + n1]) == Splice(c0, off0, src[..i + n1])
  {
    assert src[..i] + src[i..i + n1] == src[..i + n1];
    if i > 0 {
      SpliceTwice(c0, off0, src[..i], src[i..i + n1]);
    } else {
      assert src[0..n1] == src[..n1];
    }
  }

  lemma NoChunks(g: Geo, d: Disk, ino: Inode, off: nat, src: seq<Byte>)
    ensures Chunks(g, d, ino, d, ino, off, src, 0) && Conserves(g, d, ino, d, ino)
  {
    hide FreeCount, Takes;
  }

  /** What has been written of src. */
  lemma ChunksAre(g: Geo, d0: Disk, ino0: Inode, d: Disk, ino: Inode, off0: nat, src: seq<Byte>, i: nat)
    requires Chunks(g, d0, ino0, d, ino, off0, src, i)
    ensures Conserves(g, d0, ino0, d, ino) && (i < |src| ==> i % CHUNK == 0)
    ensures if i == 0 then d == d0 && ino == ino0 else ChunksWritten(d0, ino0, d, ino, off0, src, i)
  {
    hide Conserves, ChunksWritten;
  }

  lemma ChunkFails(g: Geo, d0: Disk, ino0: Inode, d1: Disk, ino1: Inode, off0: nat, src: seq<Byte>, i: nat, n1: nat)
    requires Chunks(g, d0, ino0, d1, ino1, off0, src, i) && i < |src| && n1 == Min(|src| - i, CHUNK)
    requires off0 + i <= ino1.size && off0 + i + n1 <= MAXFILE * BSIZE && !Affords(g, d1, ino1, off0 + i + n1)
    ensures off0 <= ino0.size && !Affords(g, d0, ino0, Reach(off0, |src|))
  {
    hide FreeCount, Takes, Content, Splice;
    var hi := off0 + i + n1;
    ReachAt(off0, |src|, i, n1);
    assert Max(ino1.size, hi) == Max(ino0.size, hi);
    TakesMore(ino0, Max(ino0.size, hi), Max(ino0.size, Reach(off0, |src|)));
  }

  /** The chunk after i bytes is among those that are written. */
  lemma ReachAt(off: nat, n: nat, i: nat, n1: nat)
    requires i % CHUNK == 0 && i < n && n1 == Min(n - i, CHUNK) && off <= MAXFILE * BSIZE
    ensures off + i + n1 <= MAXFILE * BSIZE ==> off + i + n1 <= Reach(off, n)
    ensures off + i <= MAXFILE * BSIZE < off + i + n1 ==> Reach(off, n) == off + i
  {
    WholeChunks(i, MAXFILE * BSIZE - off);
  }

  lemma WholeChunks(i: nat, room: nat)
    requires i % CHUNK == 0
    ensures i + CHUNK <= room ==> i + CHUNK <= room / CHUNK * CHUNK
    ensures i <= room < i + CHUNK ==> room / CHUNK * CHUNK == i
  {
    assert CHUNK == 1536;
    var q, r := i / 1536, room / 1536;
    assert i == 1536 * q && 1536 * r <= room < 1536 * r + 1536;
  }

  lemma ChunksEnd(g: Geo, d0: Disk, ino0: Inode, d: Disk, ino: Inode, off0: nat, src: seq<Byte>, i: nat)
    requires Chunks(g, d0, ino0, d, ino, off0, src, i) && i <= |src| && ino0.size <= MAXFILE * BSIZE
    requires i < |src| ==> off0 + i > ino.size || off0 + i + Min(|src| - i, CHUNK) > MAXFILE * BSIZE
    ensures i == |src| <==> !Refused(true, off0, ino0.size, |src|)
    ensures if off0 <= ino0.size then off0 + i == Reach(off0, |src|) && Affords(g, d0, ino0, Reach(off0, |src|))
            else i == 0
  {
    hide FreeCount, Takes, Content, Splice;
    if i < |src| && off0 <= ino0.size { ReachAt(off0, |src|, i, Min(|src| - i, CHUNK)); }
    assert off0 <= ino0.size ==> ino.size == Max(ino0.size, off0 + i);
  }
}
