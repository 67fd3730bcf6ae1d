/** log-legacy.c: one transaction at a time, every log_write copied to the log at once. A
    second implementation of the specification of LogProtocol: at every disk write there is one
    image to which the disk recovers, and it changes only at the commit's write of the header. */
module LegacyLog {
  import opened Blocks
  import opened LogProtocol
  import opened LogInvariant

  /** One write to the disk: the disk after it, and the home image it must recover to. */
  datatype Moment = Moment(disk: Disk, img: Disk)

  ghost predicate Sound(c: Config, m: Moment) {
    |m.disk| == |m.img| == c.size && ValidConfig(c) && DiskSound(c, m.disk, m.img)
  }

  class Log {
    const c: Config
    var disk: Disk
    var n: nat
    const sector: array<nat>
    var busy: bool
    /** What the transactions have written: all of it, and what is committed. */
    ghost var cur: Disk
    ghost var img: Disk
    ghost var past: seq<Moment>

    ghost predicate Fields()
      reads this, sector
    {
      && ValidConfig(c) && |disk| == |cur| == |img| == c.size
      && sector.Length == LOGSIZE && n <= LOGSIZE && ValidEntries(c, sector[..n])
      && past != [] && past[|past| - 1].disk == disk
    }

    /** Every moment so far, were power lost there, recovers to its image. */
    ghost predicate AllSound()
      reads this`past
    {
      forall i :: 0 <= i < |past| ==> Sound(c, past[i])
    }

    /** Between the steps of a transaction the log blocks already hold what it wrote. */
    ghost predicate Valid()
      reads this, sector
    {
      && Fields() && AllSound()
      && DiskInv(c, WriteLog(n), disk, sector[..n], cur, img, true, true)
      && (!busy ==> n == 0)
    }

    /** Moments before the last commit's header keep the old image, later ones have the new. */
    ghost predicate Since(before: seq<Moment>, at: nat, old_img: Disk, new_img: Disk)
      reads this`past
    {
      && before <= past
      && forall i :: |before| <= i < |past| ==> past[i].img == if i < at then old_img else new_img
    }

    /** A boot from any disk that recovers to img0, such as one at which an earlier run stopped:
        recover_from_log ends with img0 in the home blocks, and may itself be cut anywhere. */
    constructor (c: Config, d: Disk, ghost img0: Disk)
      requires Sound(c, Moment(d, img0))
      ensures Valid() && this.c == c && !busy && img == cur == img0 && fresh(sector)
      ensures SameHome(c, disk, img0)
      ensures forall i :: 0 <= i < |past| ==> past[i].img == img0
    {
      this.c := c;
      disk, sector, busy := d, new nat[LOGSIZE], false;
      cur, img, past := img0, img0, [Moment(d, img0)];
      n := 0;
      new;
      ReadHead();
      InstallTrans(true);
      ClearHead(true);
      assert sector[..n] == [];
    }

    /** bwrite: one atomic disk write. */
    method Bwrite(b: nat, x: Block)
      requires b < |disk| && AllSound() && Sound(c, Moment(disk[b := x], img))
      modifies this`disk, this`past
      ensures disk == old(disk)[b := x] && past == old(past) + [Moment(disk, img)] && AllSound()
    {
      hide Sound;
      disk := disk[b := x];
      past := past + [Moment(disk, img)];
    }

    method ReadHead()
      requires Fields() && img == cur && DiskSound(c, disk, img)
      modifies this`n, sector
      ensures Fields() && DiskInv(c, RecInstall(0), disk, sector[..n], cur, cur, true, true)
    {
      var buf := disk[c.start];
      n := WordAt(buf, 0);
      for i := 0 to n
        invariant forall j :: 0 <= j < i ==> sector[j] == WordAt(buf, 1 + j)
        modifies sector
      {
        sector[i] := WordAt(buf, 1 + i);
      }
      assert sector[..n] == DecodeHead(buf);
    }

    /** In memory n block numbers, on disk the old contents of the header block. */
    method WriteHeadBlock() returns (h: Block)
      requires Fields()
      ensures h == EncodeHead(disk[c.start], sector[..n]) && DecodeHead(h) == sector[..n]
      ensures n == 0 ==> WordAt(h, 0) == 0
    {
      Fits(c, sector[..n]);
      h := SetWord(disk[c.start], 0, n);
      ghost var h1 := h;
      for i := 0 to n
        invariant h == EncodeEntries(h1, sector[..i])
      {
        assert sector[..i + 1][..i] == sector[..i] && sector[i] == sector[..n][i];
        h := SetWord(h, i + 1, sector[i]);
      }
      HeadRoundTrip(disk[c.start], sector[..n]);
      EntriesDecode(h1, sector[..n], 0);
      SetWordAt(disk[c.start], 0, n, 0);
    }

    method InstallTrans(ghost recovering: bool)
      requires Fields() && AllSound() && cur == img
      requires DiskInv(c, (if recovering then RecInstall(0) else Install(0)), disk, sector[..n], cur, cur, true, true)
      modifies this`disk, this`past
      ensures Fields() && AllSound() && Since(old(past), 0, img, img)
      ensures DiskInv(c, (if recovering then RecInstall(n) else Install(n)), disk, sector[..n], cur, cur, true, true)
    {
      hide DiskInv, DiskSound, ValidEntries;
      for tail := 0 to n
        invariant Fields() && AllSound() && Since(old(past), 0, img, img)
        invariant DiskInv(c, (if recovering then RecInstall(tail) else Install(tail)), disk, sector[..n], cur, cur,
                          true, true)
      {
        InstallMoment(c, disk, sector[..n], cur, tail, recovering);
        Bwrite(sector[tail], disk[c.start + tail + 1]);
      }
    }

    method ClearHead(ghost recovering: bool)
      requires Fields() && AllSound() && cur == img
      requires DiskInv(c, (if recovering then RecInstall(n) else Install(n)), disk, sector[..n], cur, cur, true, true)
      modifies this`disk, this`past, this`n
      ensures Fields() && AllSound() && Since(old(past), 0, img, img) && n == 0
      ensures DiskInv(c, WriteLog(0), disk, [], cur, cur, true, true)
    {
      ghost var lh := sector[..n];
      n := 0;
      assert sector[..n] == [];
      var h := WriteHeadBlock();
      ClearMoment(c, disk, lh, cur, h, recovering);
      Bwrite(c.start, h);
    }

    /** begin_trans: false means that the caller sleeps until the other transaction commits. */
    method BeginTrans() returns (started: bool)
      requires Valid()
      modifies this`busy
      ensures Valid() && busy && started == !old(busy)
    {
      if busy { return false; }
      busy := true;
      return true;
    }

    /** Where log_write finds block b, or n. */
    method Find(b: nat) returns (i: nat)
      requires n <= sector.Length
      ensures i <= n && (i < n ==> sector[..n][i] == b) && (i == n ==> b !in sector[..n])
    {
      i := 0;
      while i < n
        invariant 0 <= i <= n && b !in sector[..i]
      {
        if sector[i] == b { break; }
        i := i + 1;
      }
    }

    /** log_write of a buffer for home block b with contents x. */
    method LogWrite(b: nat, x: Block) returns (panicked: bool)
      requires Valid() && Home(c, b)
      modifies this`disk, this`n, this`cur, this`past, sector
      ensures Valid() && img == old(img)
      ensures panicked <==> old(n) >= LOGSIZE || old(n) >= c.nlog - 1 || !busy
      ensures panicked ==> disk == old(disk) && cur == old(cur) && past == old(past)
      ensures !panicked ==> cur == old(cur)[b := x] && Since(old(past), 0, img, img)
    {
      hide DiskInv, DiskSound, ValidEntries, Sound, AllSound;
      if n >= LOGSIZE || n >= c.nlog - 1 || !busy { return true; }
      var i := Find(b);
      ghost var lh := sector[..n];
      LegacyWrite(c, disk, lh, cur, img, i, b, x);
      SoundAt(c, disk[c.start + i + 1 := x], img);
      sector[i] := b;
      Bwrite(c.start + i + 1, x);
      cur := cur[b := x];
      if i == n {
        n := n + 1;
        assert sector[..n] == lh + [b];
      } else {
        assert sector[..n] == lh;
      }
      panicked := false;
    }

    /** The write_head of commit_trans that makes the transaction durable. */
    method CommitHead()
      requires Valid() && n > 0
      modifies this`disk, this`img, this`past
      ensures Fields() && AllSound() && img == cur && Since(old(past), |old(past)|, old(img), cur)
      ensures |past| == |old(past)| + 1
      ensures DiskInv(c, Install(0), disk, sector[..n], cur, cur, true, true)
    {
      hide DiskInv, DiskSound, ValidEntries;
      var h := WriteHeadBlock();
      CommitMoment(c, disk, sector[..n], cur, img, h);
      img := cur;
      Bwrite(c.start, h);
    }

    /** commit_trans: old image before moment at, new image from it on. */
    method CommitTrans() returns (ghost at: nat)
      requires Valid() && busy
      modifies this`disk, this`n, this`busy, this`img, this`past
      ensures Valid() && !busy && cur == old(cur) && SameHome(c, disk, cur)
      ensures Since(old(past), at, old(img), cur)
      ensures old(n) > 0 ==> img == cur && |old(past)| == at < |past|
      ensures old(n) == 0 ==> past == old(past) && img == old(img)
    {
      hide DiskInv, DiskSound, ValidEntries;
      at := |past|;
      if n > 0 {
        CommitHead();
        InstallTrans(false);
        ClearHead(false);
      }
      busy := false;
      assert sector[..n] == [];
      RestingHome(c, disk, cur, img);
    }
  }

  lemma SoundAt(c: Config, d: Disk, img: Disk)
    requires ValidConfig(c) && |d| == |img| == c.size && DiskSound(c, d, img)
    ensures Sound(c, Moment(d, img))
  {
  }

  lemma RestingHome(c: Config, d: Disk, l: Disk, img: Disk)
    requires ValidConfig(c) && |d| == |l| == |img| == c.size && ValidEntries(c, [])
    requires DiskInv(c, WriteLog(0), d, [], l, img, true, true)
    ensures SameHome(c, d, l)
  {
  }

  lemma Fits(c: Config, lh: seq<nat>)
    requires ValidConfig(c) && ValidEntries(c, lh)
    ensures HeaderFits(lh) && HeaderFits([])
    ensures forall i :: 0 <= i <= |lh| ==> HeaderFits(lh[..i])
  {
  }

  lemma InstallMoment(c: Config, d: Disk, lh: seq<nat>, l: Disk, k: nat, recovering: bool)
    requires ValidConfig(c) && |d| == |l| == c.size && ValidEntries(c, lh) && k < |lh|
    requires DiskInv(c, (if recovering then RecInstall(k) else Install(k)), d, lh, l, l, true, true)
    ensures lh[k] < c.size && c.start + k + 1 < c.size && d[c.start + k + 1] == l[lh[k]]
    ensures var e := d[lh[k] := l[lh[k]]];
      && DiskInv(c, (if recovering then RecInstall(k + 1) else Install(k + 1)), e, lh, l, l, true, true)
      && DiskSound(c, e, l)
  {
    assert Home(c, lh[k]);
    if recovering { RecInstallDisk(c, d, lh, l, k); } else { InstallDisk(c, d, lh, l, k); }
  }

  lemma ClearMoment(c: Config, d: Disk, lh: seq<nat>, l: Disk, h: Block, recovering: bool)
    requires ValidConfig(c) && |d| == |l| == c.size && ValidEntries(c, lh) && WordAt(h, 0) == 0
    requires DiskInv(c, (if recovering then RecInstall(|lh|) else Install(|lh|)), d, lh, l, l, true, true)
    ensures var e := d[c.start := h];
      DiskInv(c, WriteLog(0), e, [], l, l, true, true) && DiskSound(c, e, l) && SameHome(c, e, l)
  {
  }

  lemma CommitMoment(c: Config, d: Disk, lh: seq<nat>, l: Disk, img: Disk, h: Block)
    requires ValidConfig(c) && |d| == |l| == |img| == c.size && ValidEntries(c, lh) && DecodeHead(h) == lh
    requires DiskInv(c, WriteLog(|lh|), d, lh, l, img, true, true)
    ensures var e := d[c.start := h];
      DiskInv(c, Install(0), e, lh, l, l, true, true) && DiskSound(c, e, l)
  {
  }

  /** A synchronous log append, new or absorbed, changes nothing that recovery would use. */
  lemma LegacyWrite(c: Config, d: Disk, lh: seq<nat>, l: Disk, img: Disk, i: nat, b: nat, x: Block)
    requires ValidConfig(c) && |d| == |l| == |img| == c.size && ValidEntries(c, lh) && Home(c, b)
    requires |lh| < LOGSIZE && |lh| < c.nlog - 1 && i <= |lh|
    requires if i < |lh| then lh[i] == b else b !in lh
    requires DiskInv(c, WriteLog(|lh|), d, lh, l, img, true, true)
    ensures var lh' := if i < |lh| then lh else lh + [b];
      && ValidEntries(c, lh')
      && var e := d[c.start + i + 1 := x];
         DiskInv(c, WriteLog(|lh'|), e, lh', l[b := x], img, true, true) && DiskSound(c, e, img)
  {
    var lh' := if i < |lh| then lh else lh + [b];
    var e := d[c.start + i + 1 := x];
    assert ValidEntries(c, lh');
    LegacyHome(c, d, lh, l, b, x, e, lh');
    LegacyLogBlocks(c, d, lh, l, i, b, x);
    assert SameHome(c, e, img);
    assert e[c.start] == d[c.start];
    EmptySound(c, e, img);
  }

  lemma LegacyHome(c: Config, d: Disk, lh: seq<nat>, l: Disk, b: nat, x: Block, e: Disk, lh': seq<nat>)
    requires ValidConfig(c) && |d| == |e| == |l| == c.size && Home(c, b)
    requires OthersHome(c, d, l, lh) && (forall a: nat :: Home(c, a) ==> e[a] == d[a])
    requires b in lh' && forall a :: a in lh ==> a in lh'
    ensures OthersHome(c, e, l[b := x], lh')
  {
  }

  lemma LegacyLogBlocks(c: Config, d: Disk, lh: seq<nat>, l: Disk, i: nat, b: nat, x: Block)
    requires ValidConfig(c) && |d| == |l| == c.size && ValidEntries(c, lh) && Home(c, b)
    requires |lh| < c.nlog - 1 && i <= |lh| && (if i < |lh| then lh[i] == b else b !in lh)
    requires LogHolds(c, d, l, lh, |lh|)
    ensures var lh' := if i < |lh| then lh else lh + [b];
      ValidEntries(c, lh') ==> LogHolds(c, d[c.start + i + 1 := x], l[b := x], lh', |lh'|)
  {
  }

  lemma EmptySound(c: Config, d: Disk, img: Disk)
    requires ValidConfig(c) && |d| == |img| == c.size && HeadEmpty(c, d) && SameHome(c, d, img)
    ensures DiskSound(c, d, img)
  {
  }
}
