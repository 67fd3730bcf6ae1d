/** The file system over the log: what an operation of the inode layer has given to log_write takes
    the disk from one file system in order to another, and so whatever a crash leaves recovers to
    a file system in order, with the files of the last operation that is durable. */
module CrashFiles {
  import opened Blocks
  import opened Inodes
  import opened InodeLayer
  import opened FileIO
  import opened DiskInodes
  import opened LogProtocol
  import LogInvariant
  import LogRuns

  // ---- file systems on a disk ------------------------------------------------------------------

  ghost predicate FilesOk(g: Geo, d: Disk, mem: seq<Inode>, owner: map<nat, Slot>) {
    Own(g, d, mem, owner, {}) && NoHoles(d, mem) && AllTight(d, mem) && FreeClean(mem)
  }

  /** A disk that holds a file system in order. */
  ghost predicate DiskOk(g: Geo, d: Disk) {
    ValidGeo(g) && |d| == g.size && exists owner :: FilesOk(g, d, InodesOn(g, d), owner)
  }

  /** The same bitmap and the same data. */
  ghost predicate Agree(g: Geo, d: Disk, d': Disk) {
    |d| == |d'| == g.size && forall b: nat :: g.bmapstart <= b < g.size ==> d'[b] == d[b]
  }

  predicate SameAt(d: Disk, d': Disk, b: nat) { b < |d| && b < |d'| && d'[b] == d[b] }

  ghost predicate SameFiles(d: Disk, d': Disk, mem: seq<Inode>) {
    forall n :: 0 <= n < |mem| && mem[n].size <= MAXFILE * BSIZE ==> Content(d', mem[n]) == Content(d, mem[n])
  }

  /** The inode layer reads the bitmap and the data blocks, and no other block. */
  lemma FilesFrame(g: Geo, d: Disk, d': Disk, mem: seq<Inode>, owner: map<nat, Slot>)
    requires FilesOk(g, d, mem, owner) && Agree(g, d, d')
    ensures FilesOk(g, d', mem, owner) && SameFiles(d, d', mem)
  {
    hide NoHoles, AllTight, FreeClean, BlockOf, Used, AddrOf, SameFiles, Own;
    forall n, bn: nat | 0 <= n < |mem| && bn < MAXFILE
      ensures BlockOf(d', mem[n], bn) == BlockOf(d, mem[n], bn)
      ensures BlockOf(d, mem[n], bn) != 0 ==> SameAt(d, d', BlockOf(d, mem[n], bn))
    {
      FrameBlock(g, d, d', mem, owner, n, bn);
    }
    FrameOwn(g, d, d', mem, owner);
    FrameHoles(d, d', mem);
    FrameFiles(d, d', mem);
  }

  lemma FrameBlock(g: Geo, d: Disk, d': Disk, mem: seq<Inode>, owner: map<nat, Slot>, n: nat, bn: nat)
    requires Own(g, d, mem, owner, {}) && Agree(g, d, d') && n < |mem| && bn < MAXFILE
    ensures BlockOf(d', mem[n], bn) == BlockOf(d, mem[n], bn)
    ensures BlockOf(d, mem[n], bn) != 0 ==> SameAt(d, d', BlockOf(d, mem[n], bn))
  {
    InOrder(g) by { OwnShape(g, d, mem, owner); }
    hide Own, ValidGeo;
    if mem[n].addrs[NDIRECT] != 0 { IndirectBelow(g, d, mem, owner, n); }
    if BlockOf(d, mem[n], bn) != 0 { DataOwned(g, d, mem, owner, n, bn); }
  }

  lemma FrameOwn(g: Geo, d: Disk, d': Disk, mem: seq<Inode>, owner: map<nat, Slot>)
    requires Own(g, d, mem, owner, {}) && Agree(g, d, d')
    requires forall n, bn: nat :: 0 <= n < |mem| && bn < MAXFILE ==> BlockOf(d', mem[n], bn) == BlockOf(d, mem[n], bn)
    ensures Own(g, d', mem, owner, {})
  {
    hide BlockOf, BitAt;
    forall s | ValidSlot(|mem|, s) ensures AddrOf(d', mem, s) == AddrOf(d, mem, s) {}
    forall b: nat | b < g.size ensures Used(g, d', b) == Used(g, d, b) { BitmapBelow(g, b); }
    hide AddrOf, Used;
  }

  lemma FrameHoles(d: Disk, d': Disk, mem: seq<Inode>)
    requires forall n, bn: nat :: 0 <= n < |mem| && bn < MAXFILE ==> BlockOf(d', mem[n], bn) == BlockOf(d, mem[n], bn)
    ensures NoHoles(d, mem) ==> NoHoles(d', mem)
    ensures AllTight(d, mem) ==> AllTight(d', mem)
  {
    hide BlockOf;
    if NoHoles(d, mem) {
      forall n | 0 <= n < |mem| ensures Covered(d', mem[n], mem[n].size) { assert Covered(d, mem[n], mem[n].size); }
    }
    if AllTight(d, mem) {
      forall n | 0 <= n < |mem| ensures Tight(d', mem[n], mem[n].size) { assert Tight(d, mem[n], mem[n].size); }
    }
  }

  lemma FrameFiles(d: Disk, d': Disk, mem: seq<Inode>)
    requires |d| == |d'|
    requires forall n, bn: nat :: 0 <= n < |mem| && bn < MAXFILE ==>
      && BlockOf(d', mem[n], bn) == BlockOf(d, mem[n], bn)
      && (BlockOf(d, mem[n], bn) != 0 ==> SameAt(d, d', BlockOf(d, mem[n], bn)))
    requires NoHoles(d, mem)
    ensures SameFiles(d, d', mem)
  {
    hide BlockOf;
    forall n | 0 <= n < |mem| && mem[n].size <= MAXFILE * BSIZE ensures Content(d', mem[n]) == Content(d, mem[n]) {
      assert Covered(d, mem[n], mem[n].size);
      forall p | 0 <= p < mem[n].size ensures ByteAt(d', mem[n], p) == ByteAt(d, mem[n], p) {
        assert BlockOf(d, mem[n], p / BSIZE) != 0;
      }
    }
  }

  // ---- crashes ---------------------------------------------------------------------------------

  /** The log lies before the inodes. */
  ghost predicate Fits(g: Geo, c: Config) {
    ValidGeo(g) && ValidConfig(c) && g.size == c.size && c.start + c.nlog <= g.inodestart
  }

  lemma HomeAgrees(g: Geo, c: Config, d: Disk, d': Disk)
    requires Fits(g, c) && SameHome(c, d, d')
    ensures Agree(g, d, d') && InodesOn(g, d') == InodesOn(g, d)
  {
    InOrder(g);
    forall n: nat | n < g.ninodes ensures d'[IBLOCK(g, n)] == d[IBLOCK(g, n)] { InodeBlock(g, n); }
    hide InodeAt, IBLOCK, ValidGeo;
  }

  /** Two points of a history at which no operation is open, and one is between them. */
  ghost predicate Neighbours(es: seq<Event>, i: nat, j: nat) {
    && i < j <= |es| && OpenOps(es[..i]) == {} && OpenOps(es[..j]) == {}
    && forall k :: i < k < j ==> OpenOps(es[..k]) != {}
  }

  /** What the log takes in between two such points takes a file system in order to one in order. */
  ghost predicate OpsKeep(g: Geo, d: Disk, es: seq<Event>) {
    forall i: nat, j: nat :: Neighbours(es, i, j) && DiskOk(g, Replay(d, es[..i])) ==> DiskOk(g, Replay(d, es[..j]))
  }

  lemma {:induction false} LastQuiet(es: seq<Event>, j: nat, k: nat) returns (i: nat)
    requires k < j <= |es| && OpenOps(es[..j]) == {} && forall m :: k < m < j ==> OpenOps(es[..m]) != {}
    ensures Neighbours(es, i, j)
    decreases k
  {
    assert OpenOps(es[..0]) == {} by { assert es[..0] == []; }
    hide OpenOps;
    if OpenOps(es[..k]) == {} { i := k; } else { i := LastQuiet(es, j, k - 1); }
  }

  lemma {:induction false} QuietOk(g: Geo, d: Disk, es: seq<Event>, j: nat)
    requires DiskOk(g, d) && OpsKeep(g, d, es) && j <= |es| && OpenOps(es[..j]) == {}
    ensures DiskOk(g, Replay(d, es[..j]))
    decreases j
  {
    assert es[..0] == [] && Replay(d, []) == d;
    hide DiskOk, Replay, OpenOps;
    if j > 0 {
      var i := LastQuiet(es, j, j - 1);
      QuietOk(g, d, es, i);
    }
  }

  function Durable(s: State): seq<Event> { if s.durable <= |s.events| then s.events[..s.durable] else s.events }

  /** Stop any run anywhere. If the disk began as a file system in order, and the operations keep
      it so, the disk recovers to a file system in order, with the inodes and the files that the
      durable operations have made. */
  lemma FilesSurvive(g: Geo, c: Config, tr: seq<State>, i: nat)
    requires IsRun(c, tr) && i < |tr| && Fits(g, c) && DiskOk(g, tr[0].disk)
    requires OpsKeep(g, tr[0].disk, Durable(tr[i]))
    ensures c.start < |tr[i].disk| && |tr[0].disk| == |tr[i].disk| == g.size
    ensures var d, r := Replay(tr[0].disk, Durable(tr[i])), Recovered(c, tr[i].disk);
      && |r| == |d| == g.size
      && DiskOk(g, r) && InodesOn(g, r) == InodesOn(g, d) && SameFiles(d, r, InodesOn(g, d))
  {
    hide Next, SameHome, DiskOk, OpsKeep, Recovered, Replay, OpenOps, SameFiles, InodesOn;
    LogRuns.CrashAtomicity(c, tr, i);
    Sizes(c, tr, i);
    var es := Durable(tr[i]);
    assert es[..|es|] == es;
    QuietOk(g, tr[0].disk, es, |es|);
    HomeOk(g, c, Recovered(c, tr[i].disk), Replay(tr[0].disk, es));
  }

  /** The same of the disk itself after a crash at i and a recovery that is complete at j. */
  lemma FilesRecovered(g: Geo, c: Config, tr: seq<State>, i: nat, j: nat)
    requires IsRun(c, tr) && i + 1 < j < |tr| && Fits(g, c) && DiskOk(g, tr[0].disk)
    requires tr[i].durable <= |tr[i].events| && tr[i + 1] == DoCrash(tr[i])
    requires (forall k :: i + 1 <= k < j ==> Recovering(tr[k])) && tr[j].phase.Running?
    requires OpsKeep(g, tr[0].disk, Durable(tr[i]))
    ensures var d, r := Replay(tr[0].disk, Durable(tr[i])), tr[j].disk;
      && |r| == |d| == g.size
      && DiskOk(g, r) && InodesOn(g, r) == InodesOn(g, d) && SameFiles(d, r, InodesOn(g, d))
  {
    hide Next, SameHome, DiskOk, OpsKeep, Recovered, Replay, OpenOps, SameFiles, InodesOn;
    LogRuns.CrashAtomicity(c, tr, i);
    LogRuns.CrashThenRecover(c, tr, i, j);
    var es := Durable(tr[i]);
    assert es[..|es|] == es;
    QuietOk(g, tr[0].disk, es, |es|);
    HomeOk(g, c, tr[j].disk, Replay(tr[0].disk, es));
  }

  lemma Sizes(c: Config, tr: seq<State>, i: nat)
    requires IsRun(c, tr) && i < |tr|
    ensures |tr[0].disk| == |tr[i].disk| == c.size
  {
    hide Next;
    LogRuns.RunInv(c, tr, i);
    LogInvariant.InvSizes(c, tr[i]);
  }

  lemma HomeOk(g: Geo, c: Config, r: Disk, d: Disk)
    requires Fits(g, c) && SameHome(c, r, d) && DiskOk(g, d)
    ensures |r| == |d| == g.size
    ensures DiskOk(g, r) && InodesOn(g, r) == InodesOn(g, d) && SameFiles(d, r, InodesOn(g, d))
  {
    HomeAgrees(g, c, d, r);
    hide FilesOk, InodesOn, SameFiles, Agree, ValidGeo;
    var owner :| FilesOk(g, d, InodesOn(g, d), owner);
    FilesFrame(g, d, r, InodesOn(g, d), owner);
  }

  // ---- one operation ---------------------------------------------------------------------------

  /** The disk d has the layer's blocks, and its inodes in the inode blocks. */
  ghost predicate Laid(g: Geo, d: Disk, disk: Disk, dinode: seq<Inode>) {
    ValidGeo(g) && Agree(g, disk, d) && InodesOn(g, d) == dinode
  }

  lemma LaidOk(g: Geo, d: Disk, disk: Disk, mem: seq<Inode>, owner: map<nat, Slot>)
    requires Laid(g, d, disk, mem) && FilesOk(g, disk, mem, owner)
    ensures DiskOk(g, d) && SameFiles(disk, d, InodesOn(g, d))
  {
    hide FilesOk, InodesOn, SameFiles, ValidGeo;
    FilesFrame(g, disk, d, mem, owner);
    hide Agree;
  }

  ghost predicate AllFit(m: seq<Inode>) { forall n :: 0 <= n < |m| ==> InodeFits(m[n]) }

  /** Block b as the operation has left it in its buffer. */
  ghost function Final(g: Geo, d: Disk, disk: Disk, dinode: seq<Inode>, b: nat): Block
    requires ValidGeo(g) && |d| == |disk| == g.size && |dinode| == g.ninodes && AllFit(dinode) && b < g.size
  {
    if b >= g.bmapstart then disk[b] else if b < g.inodestart then d[b] else
      var n := (b - g.inodestart) * IPB;
      var x := if n < g.ninodes then PutInode(d[b], 0, dinode[n]) else d[b];
      if n + 1 < g.ninodes then PutInode(x, 1, dinode[n + 1]) else x
  }

  lemma FinalInode(g: Geo, d: Disk, disk: Disk, dinode: seq<Inode>, n: nat)
    requires ValidGeo(g) && |d| == |disk| == g.size && |dinode| == g.ninodes && AllFit(dinode) && n < g.ninodes
    ensures IBLOCK(g, n) < g.size && InodeAt(Final(g, d, disk, dinode, IBLOCK(g, n)), n % IPB) == dinode[n]
  {
    hide InodeAt, PutInode, ValidGeo, InodeFits;
    InodeBlock(g, n);
    Pair(g, n);
    var b := IBLOCK(g, n);
    var m := (b - g.inodestart) * IPB;
    var x := PutInode(d[b], 0, dinode[m]);
    PutInodeAt(d[b], 0, dinode[m], n % IPB);
    if m + 1 < g.ninodes { PutInodeAt(x, 1, dinode[m + 1], n % IPB); }
  }

  /** The inodes of a block are two neighbours. */
  lemma Pair(g: Geo, n: nat)
    ensures var m := (IBLOCK(g, n) - g.inodestart) * IPB; if n % IPB == 0 then n == m else n % IPB == 1 && n == m + 1
  {
  }

  /** The calls of log_write by which the blocks of dirty get their final contents. */
  lemma {:induction false} Writes(g: Geo, d: Disk, disk: Disk, dinode: seq<Inode>, dirty: set<nat>, p: Pid)
    returns (ws: seq<Event>)
    requires ValidGeo(g) && |d| == |disk| == g.size && |dinode| == g.ninodes && AllFit(dinode)
    requires forall b :: b in dirty ==> b < g.size
    ensures |ws| == |dirty| && forall e :: e in ws ==> e.Write? && e.p == p && e.b in dirty
    ensures forall b: nat :: b < |d| ==>
      Replay(d, ws)[b] == if b in dirty then Final(g, d, disk, dinode, b) else d[b]
    decreases |dirty|
  {
    hide Final, ValidGeo, AllFit;
    if dirty == {} {
      ws := [];
    } else {
      var b :| b in dirty;
      var init := Writes(g, d, disk, dinode, dirty - {b}, p);
      var e := Write(p, b, Final(g, d, disk, dinode, b));
      ws := init + [e];
      LogRuns.Snoc(d, init, e, 0);
      hide Replay;
      assert Replay(d, ws) == Replay(d, init)[b := Final(g, d, disk, dinode, b)];
    }
  }

  /** The disk after those writes is laid out as the layer now is. */
  lemma WritesLaid(g: Geo, d: Disk, d': Disk, disk: Disk, dinode: seq<Inode>, disk': Disk, dinode': seq<Inode>,
                   dirty: set<nat>)
    requires Laid(g, d, disk, dinode) && |disk'| == g.size && |dinode'| == g.ninodes && AllFit(dinode')
    requires AllLogged(g, disk, {}, disk', dirty) && InodesLogged(g, dinode, dinode', dirty)
    requires |d'| == |d| && forall b: nat :: b < |d| ==>
      d'[b] == if b in dirty then Final(g, d, disk', dinode', b) else d[b]
    ensures Laid(g, d', disk', dinode')
  {
    hide InodeAt, PutInode, AllFit;
    forall b: nat | g.bmapstart <= b < g.size ensures d'[b] == disk'[b] {
      assert b !in dirty ==> d[b] == disk[b] == disk'[b];
    }
    var m, m' := InodesOn(g, d), InodesOn(g, d');
    forall n: nat | n < g.ninodes ensures m'[n] == dinode'[n] {
      InodeBlock(g, n);
      if IBLOCK(g, n) in dirty { FinalInode(g, d, disk', dinode', n); } else { assert m[n] == dinode[n] == dinode'[n]; }
    }
    assert m' == dinode';
  }

  lemma NarrowFits(g: Geo, d: Disk, mem: seq<Inode>, owner: map<nat, Slot>)
    requires FilesOk(g, d, mem, owner) && Narrow(mem)
    ensures AllFit(mem)
  {
    hide AllTight, FreeClean, BlockOf, Used;
    forall n, i | 0 <= n < |mem| && 0 <= i <= NDIRECT ensures mem[n].addrs[i] < UINT {
      assert AddrOf(d, mem, Ptr(n, i)) == mem[n].addrs[i];
    }
    forall n | 0 <= n < |mem| ensures mem[n].size < UINT { assert Covered(d, mem[n], mem[n].size); }
  }

  /** Types and link counts are 16 bits wide. */
  ghost predicate Narrow(mem: seq<Inode>) {
    forall n :: 0 <= n < |mem| ==> mem[n].kind < 0x1_0000 && mem[n].nlink < 0x1_0000
  }

  /** One operation of filewrite over the log: a chunk is written, and what has been given to
      log_write - at most MAXOPBLOCKS blocks, none of them in the log - makes of the disk d one
      in which the file is the old one with the chunk laid over it, and all is in order. */
  method LoggedWrite(fs: FileSystem, inum: nat, off: nat, src: seq<Byte>, p: Pid, ghost d: Disk)
    returns (r: WriteResult, ghost ws: seq<Event>)
    requires fs.Valid() && fs.dinode == fs.mem && Laid(fs.g, d, fs.disk, fs.mem) && Narrow(fs.mem)
    requires inum < fs.g.ninodes && fs.mem[inum].kind != 0 && off < UINT && |src| <= CHUNK
    modifies fs
    ensures |ws| <= MAXOPBLOCKS && forall e :: e in ws ==> e.Write? && e.p == p && fs.g.inodestart <= e.b < fs.g.size
    ensures r.WriteError? <==>
      off > old(fs.mem)[inum].size || off + |src| >= UINT || off + |src| > MAXFILE * BSIZE
    ensures r.Panic? <==> !r.WriteError? && !Affords(fs.g, old(fs.disk), old(fs.mem)[inum], off + |src|)
    ensures r.WriteError? ==> ws == []
    ensures r.Wrote? ==> fs.Valid() && fs.dinode == fs.mem && Narrow(fs.mem)
    ensures r.Wrote? ==> Laid(fs.g, Replay(d, ws), fs.disk, fs.mem) && DiskOk(fs.g, Replay(d, ws))
    ensures r.Wrote? ==> var m, m' := InodesOn(fs.g, d), InodesOn(fs.g, Replay(d, ws));
      && off <= m[inum].size <= MAXFILE * BSIZE && m'[inum].size <= MAXFILE * BSIZE
      && Content(Replay(d, ws), m'[inum]) == Splice(Content(d, m[inum]), off, src)
  {
    hide Own, NoHoles, AllTight, FreeClean, Content, Splice, InodesOn, Agree, SameFiles, AllLogged, InodesLogged,
      Affords, Conserves, KeepsBut, Full, Final, AllFit, Narrow, ValidGeo;
    ghost var disk, mem := fs.disk, fs.mem;
    LaidOk(fs.g, d, fs.disk, fs.mem, fs.owner);
    fs.dirty := {};
    r := Writei(fs, inum, off, src);
    ws := [];
    if r.Wrote? {
      StillNarrow(mem, fs.mem, fs.disk, disk, inum);
      NarrowFits(fs.g, fs.disk, fs.mem, fs.owner);
      LoggedInside(fs.g, disk, fs.disk, fs.dirty);
      ws := Writes(fs.g, d, fs.disk, fs.mem, fs.dirty, p);
      WritesLaid(fs.g, d, Replay(d, ws), disk, mem, fs.disk, fs.mem, fs.dirty);
      LaidOk(fs.g, Replay(d, ws), fs.disk, fs.mem, fs.owner);
      FileOf(disk, d, mem, inum);
      FileOf(fs.disk, Replay(d, ws), fs.mem, inum);
    }
  }

  lemma FileOf(d: Disk, d': Disk, mem: seq<Inode>, n: nat)
    requires SameFiles(d, d', mem) && n < |mem| && mem[n].size <= MAXFILE * BSIZE
    ensures Content(d', mem[n]) == Content(d, mem[n])
  {
  }

  lemma StillNarrow(mem: seq<Inode>, mem': seq<Inode>, disk': Disk, disk: Disk, n: nat)
    requires Narrow(mem) && KeepsBut(disk, mem, disk', mem', n) && n < |mem|
    requires mem'[n] == mem[n].(addrs := mem'[n].addrs, size := mem'[n].size)
    ensures Narrow(mem')
  {
    hide BlockOf;
  }

  lemma LoggedInside(g: Geo, d: Disk, d': Disk, dirty: set<nat>)
    requires AllLogged(g, d, {}, d', dirty)
    ensures forall b :: b in dirty ==> g.inodestart <= b < g.size
  {
  }

  /** The operation in a history: from one quiet point to the next, and on the disk its writes. */
  lemma OneOp(d: Disk, es: seq<Event>, ws: seq<Event>, p: Pid)
    requires OpenOps(es) == {} && forall e :: e in ws ==> e.Write?
    ensures var es' := es + [Begin(p)] + ws + [End(p)];
      Replay(d, es') == Replay(Replay(d, es), ws) && Neighbours(es', |es|, |es'|)
  {
    hide Replay, OpenOps;
    var open := es + [Begin(p)] + ws;
    var es' := open + [End(p)];
    Middle(d, es, ws, p, |ws|);
    assert ws[..|ws|] == ws;
    LogRuns.Snoc(d, open, End(p), |es|);
    assert es'[..|es'|] == es' && es'[..|es|] == es;
    forall k | |es| < k < |es'| ensures OpenOps(es'[..k]) != {} {
      var i := k - |es| - 1;
      Middle(d, es, ws, p, i);
      assert es'[..k] == es + [Begin(p)] + ws[..i];
      assert p in OpenOps(es'[..k]);
    }
  }

  lemma {:induction false} Middle(d: Disk, es: seq<Event>, ws: seq<Event>, p: Pid, k: nat)
    requires OpenOps(es) == {} && k <= |ws| && forall e :: e in ws ==> e.Write?
    ensures OpenOps(es + [Begin(p)] + ws[..k]) == {p}
    ensures Replay(d, es + [Begin(p)] + ws[..k]) == Replay(Replay(d, es), ws[..k])
  {
    var head := es + [Begin(p)];
    if k == 0 {
      assert head + ws[..0] == head && ws[..0] == [];
      LogRuns.Snoc(d, es, Begin(p), 0);
    } else {
      Middle(d, es, ws, p, k - 1);
      assert head + ws[..k] == (head + ws[..k - 1]) + [ws[k - 1]] && ws[..k] == ws[..k - 1] + [ws[k - 1]];
      assert ws[k - 1] in ws;
      hide Replay, OpenOps;
      LogRuns.Snoc(d, head + ws[..k - 1], ws[k - 1], 0);
      LogRuns.Snoc(Replay(d, es), ws[..k - 1], ws[k - 1], 0);
    }
  }
}
