/** What every reachable state of the log protocol satisfies, and the crash-safety,
    durability and wakeup theorems that follow. */
module LogInvariant {
  import opened Blocks
  import opened LogProtocol

  ghost predicate NoDup(s: seq<nat>) {
    forall i, j :: 0 <= i < j < |s| ==> s[i] != s[j]
  }

  ghost predicate ValidEntries(c: Config, lh: seq<nat>) {
    && |lh| <= LOGSIZE && |lh| <= c.nlog - 1 && NoDup(lh)
    && forall i :: 0 <= i < |lh| ==> Home(c, lh[i])
  }

  ghost predicate Shape(c: Config, disk: Disk, cur: Disk, img: Disk, cache: map<nat, Block>, held: map<nat, Pid>) {
    && ValidConfig(c) && |disk| == |cur| == |img| == c.size
    && (forall b :: b in cache ==> b < c.size)
    && (forall b :: b in held ==> b in cache && Home(c, b))
  }

  /** Unless an operation is at work on it, a cached block holds what was last logged. */
  ghost predicate CacheOk(c: Config, disk: Disk, cache: map<nat, Block>, held: map<nat, Pid>,
                          ops: map<Pid, nat>, l: Disk)
    requires |disk| == |l| == c.size
  {
    forall b :: b in cache && b < c.size ==>
      if Home(c, b) then (b in held && held[b] in ops) || cache[b] == l[b]
      else cache[b] == disk[b]
  }

  ghost predicate HeadEmpty(c: Config, d: Disk)
    requires c.start < |d|
  {
    WordAt(d[c.start], 0) == 0
  }

  /** The first k log blocks hold the logged contents of the first k entries. */
  ghost predicate LogHolds(c: Config, d: Disk, l: Disk, lh: seq<nat>, k: nat)
    requires ValidConfig(c) && |d| == |l| == c.size && ValidEntries(c, lh) && k <= |lh|
  {
    forall i :: 0 <= i < k ==> d[c.start + 1 + i] == l[lh[i]]
  }

  /** The first k entries are installed. */
  ghost predicate Installed(c: Config, d: Disk, l: Disk, lh: seq<nat>, k: nat)
    requires |d| == |l| == c.size && ValidEntries(c, lh) && k <= |lh|
  {
    forall i :: 0 <= i < k ==> d[lh[i]] == l[lh[i]]
  }

  ghost predicate OthersHome(c: Config, d: Disk, l: Disk, lh: seq<nat>)
    requires |d| == |l| == c.size
  {
    forall b: nat :: Home(c, b) && b !in lh ==> d[b] == l[b]
  }

  /** Recovery of this disk yields the home blocks of l. */
  ghost predicate DiskSound(c: Config, d: Disk, l: Disk)
    requires ValidConfig(c) && |d| == |l| == c.size
  {
    var lh := DecodeHead(d[c.start]);
    ValidEntries(c, lh) && OthersHome(c, d, l, lh) && LogHolds(c, d, l, lh, |lh|)
  }

  ghost predicate Pinned(cache: map<nat, Block>, pins: multiset<nat>, lh: seq<nat>) {
    pins == multiset(lh) && forall b :: b in lh ==> b in cache
  }

  /** The disk and the header in memory, phase by phase. l is the effect of all operations, img
      that of the durable ones; all says that these are the same, idle that none is under way. */
  ghost predicate DiskInv(c: Config, phase: Phase, disk: Disk, lh: seq<nat>, l: Disk, img: Disk,
                          all: bool, idle: bool)
    requires ValidConfig(c) && |disk| == |l| == |img| == c.size && ValidEntries(c, lh)
  {
    match phase
    case Running =>
      && HeadEmpty(c, disk) && OthersHome(c, disk, l, lh) && SameHome(c, disk, img)
      && (idle ==> lh == [] && all)
    case WriteLog(k) =>
      && HeadEmpty(c, disk) && OthersHome(c, disk, l, lh) && SameHome(c, disk, img)
      && k <= |lh| && LogHolds(c, disk, l, lh, k)
    case Install(k) =>
      && all && img == l && OthersHome(c, disk, l, lh) && DecodeHead(disk[c.start]) == lh
      && k <= |lh| && LogHolds(c, disk, l, lh, |lh|) && Installed(c, disk, l, lh, k)
    case Finish =>
      all && img == l && HeadEmpty(c, disk) && SameHome(c, disk, l) && lh == []
    case RecRead =>
      all && img == l && lh == [] && DiskSound(c, disk, l)
    case RecInstall(k) =>
      && all && img == l && DiskSound(c, disk, l) && DecodeHead(disk[c.start]) == lh
      && k <= |lh| && Installed(c, disk, l, lh, k)
  }

  /** The blocks still to be written home are pinned, each once, and nothing else is. */
  ghost predicate PinInv(phase: Phase, cache: map<nat, Block>, pins: multiset<nat>, lh: seq<nat>) {
    match phase
    case Running => Pinned(cache, pins, lh)
    case WriteLog(_) => Pinned(cache, pins, lh)
    case Install(k) => k <= |lh| && Pinned(cache, pins, lh[k..])
    case _ => pins == multiset{}
  }

  ghost predicate CacheIsDisk(c: Config, disk: Disk, cache: map<nat, Block>)
    requires |disk| == c.size
  {
    forall b :: b in cache && b < c.size ==> cache[b] == disk[b]
  }

  ghost predicate MemoryInv(c: Config, rec: bool, disk: Disk, cache: map<nat, Block>,
                            held: map<nat, Pid>, ops: map<Pid, nat>, l: Disk)
    requires |disk| == |l| == c.size
  {
    if rec then held == map[] && ops == map[] && CacheIsDisk(c, disk, cache)
    else CacheOk(c, disk, cache, held, ops, l)
  }

  /** A sleeper on the log has someone left to wake it; a sync whose number has come is durable. */
  ghost predicate SleepersOk(asleep: set<Pid>, syncers: map<Pid, SyncCall>, ncommit: nat,
                             len: nat, durable: nat, busy: bool) {
    && (asleep != {} ==> busy)
    && forall p :: p in syncers ==>
         && syncers[p].need <= len && syncers[p].n <= ncommit + 1
         && (syncers[p].n <= ncommit ==> syncers[p].need <= durable)
         && (syncers[p].n == ncommit + 1 ==> busy)
  }

  ghost predicate Inv(c: Config, s: State) {
    && Shape(c, s.disk, s.cur, s.img, s.cache, s.held) && ValidEntries(c, s.lh)
    && s.outstanding == |s.ops| && s.durable <= |s.events|
    && (s.outstanding > 0 ==> s.phase.Running?)
    && MemoryInv(c, Recovering(s), s.disk, s.cache, s.held, s.ops, s.cur)
    && PinInv(s.phase, s.cache, s.pins, s.lh)
    && DiskInv(c, s.phase, s.disk, s.lh, s.cur, s.img, s.durable == |s.events|, s.outstanding == 0)
    && SleepersOk(s.asleep, s.syncers, s.ncommit, |s.events|, s.durable,
                  Committing(s) || s.outstanding > 0)
    && (Recovering(s) ==> s.asleep == {} && s.syncers == map[])
  }

  // ---- the header block ----------------------------------------------------------------

  lemma {:induction false} EntriesDecode(b: Block, lh: seq<nat>, j: nat)
    requires HeaderFits(lh) && j < WORDS
    ensures WordAt(EncodeEntries(b, lh), j) == if 1 <= j <= |lh| then lh[j - 1] else WordAt(b, j)
  {
    if lh != [] {
      var init := lh[..|lh| - 1];
      EntriesDecode(b, init, j);
      SetWordAt(EncodeEntries(b, init), |lh|, lh[|lh| - 1], j);
    }
  }

  /** read_head of what write_head wrote is the header that was written, over any old block. */
  lemma HeadRoundTrip(b: Block, lh: seq<nat>)
    requires HeaderFits(lh)
    ensures DecodeHead(EncodeHead(b, lh)) == lh
  {
    var e := EncodeHead(b, lh);
    EntriesDecode(SetWord(b, 0, |lh|), lh, 0);
    SetWordAt(b, 0, |lh|, 0);
    forall i | 0 <= i < |lh| ensures DecodeHead(e)[i] == lh[i] {
      EntriesDecode(SetWord(b, 0, |lh|), lh, i + 1);
    }
  }

  // ---- recovery as a function of the disk -----------------------------------------------

  lemma {:induction false} InstallFirstAt(c: Config, d: Disk, lh: seq<nat>, k: nat, b: nat)
    requires ValidConfig(c) && |d| == c.size && ValidEntries(c, lh) && k <= |lh| && b < c.size
    ensures Home(c, b) && b !in lh[..k] ==> InstallFirst(c, d, lh, k)[b] == d[b]
    ensures !Home(c, b) ==> InstallFirst(c, d, lh, k)[b] == d[b]
    ensures forall i :: 0 <= i < k && lh[i] == b ==> InstallFirst(c, d, lh, k)[b] == d[c.start + 1 + i]
  {
    if k > 0 {
      InstallFirstAt(c, d, lh, k - 1, b);
      InstallFirstAt(c, d, lh, k - 1, c.start + k);
      assert lh[..k] == lh[..k - 1] + [lh[k - 1]];
      assert Home(c, lh[k - 1]);
    }
  }

  lemma SoundRecovers(c: Config, d: Disk, l: Disk)
    requires ValidConfig(c) && |d| == |l| == c.size && DiskSound(c, d, l)
    ensures SameHome(c, Recovered(c, d), l)
  {
    var lh := DecodeHead(d[c.start]);
    forall b: nat | Home(c, b) ensures Recovered(c, d)[b] == l[b] {
      InstallFirstAt(c, d, lh, |lh|, b);
      assert lh[..|lh|] == lh;
      if b in lh {
        var i :| 0 <= i < |lh| && lh[i] == b;
      }
    }
  }

  /** At every moment of every phase, the disk alone recovers to the committed image. */
  lemma InvSound(c: Config, s: State)
    requires Inv(c, s)
    ensures DiskSound(c, s.disk, s.img)
  {
  }

  // ---- single block writes ---------------------------------------------------------------

  /** bwrite leaves the cache agreeing with what was logged, unless it changes a home block. */
  lemma BwriteCache(c: Config, disk: Disk, cache: map<nat, Block>, held: map<nat, Pid>,
                    ops: map<Pid, nat>, l: Disk, b: nat, x: Block)
    requires |disk| == |l| == c.size && CacheOk(c, disk, cache, held, ops, l)
    requires b < c.size && (Home(c, b) ==> x == l[b])
    ensures CacheOk(c, disk[b := x], cache[b := x], held, ops, l)
  {
  }

  lemma GrowCache(phase: Phase, cache: map<nat, Block>, pins: multiset<nat>, lh: seq<nat>, b: nat, x: Block)
    requires PinInv(phase, cache, pins, lh)
    ensures PinInv(phase, cache[b := x], pins, lh)
  {
  }

  /** write_log, one block. */
  lemma LogBlockDisk(c: Config, disk: Disk, lh: seq<nat>, l: Disk, img: Disk, all: bool, k: nat)
    requires ValidConfig(c) && |disk| == |l| == |img| == c.size && ValidEntries(c, lh) && k < |lh|
    requires DiskInv(c, WriteLog(k), disk, lh, l, img, all, true)
    ensures DiskInv(c, WriteLog(k + 1), disk[c.start + 1 + k := l[lh[k]]], lh, l, img, all, true)
  {
  }

  /** The first write_head: from here on the disk recovers to the new image. */
  lemma CommitDisk(c: Config, disk: Disk, lh: seq<nat>, l: Disk, img: Disk, all: bool, h: Block)
    requires ValidConfig(c) && |disk| == |l| == |img| == c.size && ValidEntries(c, lh)
    requires DiskInv(c, WriteLog(|lh|), disk, lh, l, img, all, true) && DecodeHead(h) == lh
    ensures DiskInv(c, Install(0), disk[c.start := h], lh, l, l, true, true)
  {
  }

  /** install_trans, one block. */
  lemma InstallDisk(c: Config, disk: Disk, lh: seq<nat>, l: Disk, k: nat)
    requires ValidConfig(c) && |disk| == |l| == c.size && ValidEntries(c, lh) && k < |lh|
    requires DiskInv(c, Install(k), disk, lh, l, l, true, true)
    ensures DiskInv(c, Install(k + 1), disk[lh[k] := l[lh[k]]], lh, l, l, true, true)
  {
  }

  /** The second write_head erases the log. */
  lemma ClearDisk(c: Config, disk: Disk, lh: seq<nat>, l: Disk, h: Block)
    requires ValidConfig(c) && |disk| == |l| == c.size && ValidEntries(c, lh)
    requires DiskInv(c, Install(|lh|), disk, lh, l, l, true, true)
      || DiskInv(c, RecInstall(|lh|), disk, lh, l, l, true, true)
    requires WordAt(h, 0) == 0
    ensures DiskInv(c, Finish, disk[c.start := h], [], l, l, true, true)
    ensures DiskInv(c, Running, disk[c.start := h], [], l, l, true, true)
  {
  }

  lemma RecInstallDisk(c: Config, disk: Disk, lh: seq<nat>, l: Disk, k: nat)
    requires ValidConfig(c) && |disk| == |l| == c.size && ValidEntries(c, lh) && k < |lh|
    requires DiskInv(c, RecInstall(k), disk, lh, l, l, true, true)
    ensures DiskInv(c, RecInstall(k + 1), disk[lh[k] := l[lh[k]]], lh, l, l, true, true)
  {
    assert Home(c, lh[k]);
    assert disk[lh[k] := l[lh[k]]][c.start] == disk[c.start];
  }

  lemma EmptyHead(b: Block)
    ensures WordAt(EncodeHead(b, []), 0) == 0
  {
  }

  // ---- steps on memory -------------------------------------------------------------------

  lemma FillStep(c: Config, s: State, b: nat)
    requires Inv(c, s) && Enabled(c, s, Fill(b))
    ensures Inv(c, s.(cache := s.cache[b := s.disk[b]]))
  {
    hide DiskInv, SleepersOk, PinInv, ValidEntries, CacheOk;
    GrowCache(s.phase, s.cache, s.pins, s.lh, b, s.disk[b]);
    if !Recovering(s) {
      if Home(c, b) { FillValue(c, s, b); }
      FillCache(c, s.disk, s.cache, s.held, s.ops, s.cur, b);
    }
  }

  lemma FillCache(c: Config, disk: Disk, cache: map<nat, Block>, held: map<nat, Pid>,
                  ops: map<Pid, nat>, l: Disk, b: nat)
    requires |disk| == |l| == c.size && CacheOk(c, disk, cache, held, ops, l)
    requires b < c.size && (Home(c, b) ==> disk[b] == l[b])
    ensures CacheOk(c, disk, cache[b := disk[b]], held, ops, l)
  {
  }

  lemma FillValue(c: Config, s: State, b: nat)
    requires Inv(c, s) && b < c.size && b !in s.cache && !Recovering(s) && Home(c, b)
    ensures s.disk[b] == s.cur[b]
  {
  }

  lemma EvictStep(c: Config, s: State, b: nat)
    requires Inv(c, s) && Enabled(c, s, Evict(b))
    ensures Inv(c, s.(cache := s.cache - {b}))
  {
    EvictPins(s.phase, s.cache, s.pins, s.lh, b);
    if !Recovering(s) { EvictCache(c, s.disk, s.cache, s.held, s.ops, s.cur, b); }
  }

  lemma EvictCache(c: Config, disk: Disk, cache: map<nat, Block>, held: map<nat, Pid>,
                   ops: map<Pid, nat>, l: Disk, b: nat)
    requires |disk| == |l| == c.size && CacheOk(c, disk, cache, held, ops, l)
    ensures CacheOk(c, disk, cache - {b}, held, ops, l)
  {
  }

  lemma EvictPins(phase: Phase, cache: map<nat, Block>, pins: multiset<nat>, lh: seq<nat>, b: nat)
    requires PinInv(phase, cache, pins, lh) && b !in pins
    ensures PinInv(phase, cache - {b}, pins, lh)
  {
  }

  lemma HoldStep(c: Config, s: State, p: Pid, b: nat)
    requires Inv(c, s) && Enabled(c, s, Hold(p, b))
    ensures Inv(c, s.(held := s.held[b := p]))
  {
    hide DiskInv, PinInv, ValidEntries, SleepersOk, Home;
  }

  lemma ReleaseStep(c: Config, s: State, p: Pid, b: nat)
    requires Inv(c, s) && Enabled(c, s, Release(p, b))
    ensures Inv(c, s.(held := s.held - {b}))
  {
    hide DiskInv, PinInv, ValidEntries, SleepersOk, Home;
  }

  lemma ModifyStep(c: Config, s: State, p: Pid, b: nat, x: Block)
    requires Inv(c, s) && Enabled(c, s, Modify(p, b, x))
    ensures Inv(c, s.(cache := s.cache[b := x]))
  {
    hide DiskInv, PinInv, ValidEntries, SleepersOk, Home;
    GrowCache(s.phase, s.cache, s.pins, s.lh, b, x);
  }

  /** The invariant while an operation is open. */
  ghost predicate OpenInv(c: Config, s: State) {
    && Shape(c, s.disk, s.cur, s.img, s.cache, s.held) && ValidEntries(c, s.lh) && s.phase == Running
    && s.outstanding == |s.ops| > 0 && s.durable <= |s.events|
    && CacheOk(c, s.disk, s.cache, s.held, s.ops, s.cur) && Pinned(s.cache, s.pins, s.lh)
    && DiskInv(c, Running, s.disk, s.lh, s.cur, s.img, false, false)
    && SleepersOk(s.asleep, s.syncers, s.ncommit, |s.events|, s.durable, true)
  }

  lemma OpenIs(c: Config, s: State)
    requires s.outstanding > 0
    ensures Inv(c, s) <==> OpenInv(c, s)
  {
    hide Shape, CacheOk, ValidEntries, Pinned, SleepersOk;
  }

  lemma LogWriteFields(s: State, p: Pid, b: nat)
    requires p in s.ops && b in s.cache
    ensures var t := DoLogWrite(s, p, b);
      && t.disk == s.disk && t.img == s.img && t.cache == s.cache && t.held == s.held && t.phase == s.phase
      && t.outstanding == s.outstanding && t.durable == s.durable && |t.events| == |s.events| + 1
      && t.asleep == s.asleep && t.syncers == s.syncers && t.ncommit == s.ncommit
      && t.cur == (if b < |s.cur| then s.cur[b := s.cache[b]] else s.cur)
      && t.ops == (if b in s.lh then s.ops else s.ops[p := s.ops[p] + 1])
      && t.ops.Keys == s.ops.Keys && |t.ops| == |s.ops|
      && t.lh == (if b in s.lh then s.lh else s.lh + [b])
      && t.pins == (if b in s.lh then s.pins else s.pins + multiset{b})
  {
    var t := DoLogWrite(s, p, b);
    assert t.ops.Keys == s.ops.Keys && |t.ops| == |t.ops.Keys| && |s.ops| == |s.ops.Keys|;
  }

  lemma LogWriteParts(c: Config, s: State, p: Pid, b: nat)
    requires Inv(c, s) && Enabled(c, s, LogWrite(p, b))
    ensures OpenInv(c, s) && p in s.ops && b in s.cache && Home(c, b) && b < |s.cur|
    ensures |s.lh| < LOGSIZE && |s.lh| < c.nlog - 1
  {
    OpenIs(c, s);
    hide DiskInv, CacheOk, ValidEntries, SleepersOk, PinInv;
  }

  lemma LogWriteStep(c: Config, s: State, p: Pid, b: nat)
    requires Inv(c, s) && Enabled(c, s, LogWrite(p, b))
    ensures Inv(c, DoLogWrite(s, p, b))
  {
    hide Inv, Enabled, DoLogWrite, DiskInv, CacheOk, ValidEntries, SleepersOk, Pinned, Home;
    LogWriteParts(c, s, p, b);
    LogWriteFields(s, p, b);
    OpenIs(c, DoLogWrite(s, p, b));
    var t := DoLogWrite(s, p, b);
    SleepersLater(s.asleep, s.syncers, s.ncommit, |s.events|, |t.events|, s.durable, true);
    LogWriteDisk(c, s.disk, s.lh, s.cur, s.img, b, s.cache[b]);
    LogWriteCache(c, s.disk, s.cache, s.held, s.ops, t.ops, s.cur, b);
    AppendPins(s.cache, s.pins, s.lh, b);
  }

  lemma SleepersLater(asleep: set<Pid>, syncers: map<Pid, SyncCall>, ncommit: nat,
                      len: nat, len': nat, durable: nat, busy: bool)
    requires SleepersOk(asleep, syncers, ncommit, len, durable, busy) && len <= len'
    ensures SleepersOk(asleep, syncers, ncommit, len', durable, busy)
  {
  }

  lemma LogWriteDisk(c: Config, disk: Disk, lh: seq<nat>, l: Disk, img: Disk, b: nat, x: Block)
    requires ValidConfig(c) && |disk| == |l| == |img| == c.size && ValidEntries(c, lh) && Home(c, b)
    requires |lh| < LOGSIZE && |lh| < c.nlog - 1
    requires DiskInv(c, Running, disk, lh, l, img, false, false)
    ensures b !in lh ==> ValidEntries(c, lh + [b])
    ensures var lh' := if b in lh then lh else lh + [b];
      ValidEntries(c, lh') && DiskInv(c, Running, disk, lh', l[b := x], img, false, false)
  {
  }

  lemma LogWriteCache(c: Config, disk: Disk, cache: map<nat, Block>, held: map<nat, Pid>,
                      ops: map<Pid, nat>, ops': map<Pid, nat>, l: Disk, b: nat)
    requires |disk| == |l| == c.size && CacheOk(c, disk, cache, held, ops, l)
    requires ops'.Keys == ops.Keys && b in cache && Home(c, b)
    ensures CacheOk(c, disk, cache, held, ops', l[b := cache[b]])
  {
  }

  lemma AppendPins(cache: map<nat, Block>, pins: multiset<nat>, lh: seq<nat>, b: nat)
    requires Pinned(cache, pins, lh) && b in cache
    ensures Pinned(cache, pins + multiset{b}, lh + [b])
  {
  }

  lemma BeginStep(c: Config, s: State, p: Pid)
    requires Inv(c, s) && Enabled(c, s, BeginOp(p))
    ensures Inv(c, DoBegin(s, p))
  {
    if s.phase.Running? && s.outstanding == 0 { IdleLog(c, s); }
    hide DiskInv, CacheOk, ValidEntries, PinInv;
    if !BeginBlocked(s) { BeginOk(c, s, p); }
  }

  lemma BeginOk(c: Config, s: State, p: Pid)
    requires Inv(c, s) && Enabled(c, s, BeginOp(p)) && !BeginBlocked(s)
    ensures Inv(c, DoBegin(s, p))
  {
  }

  lemma IdleLog(c: Config, s: State)
    requires Inv(c, s) && s.phase.Running? && s.outstanding == 0
    ensures s.lh == []
  {
  }

  lemma RunningDisk(c: Config, disk: Disk, lh: seq<nat>, l: Disk, img: Disk, all: bool, idle: bool)
    requires ValidConfig(c) && |disk| == |l| == |img| == c.size && ValidEntries(c, lh)
    requires DiskInv(c, Running, disk, lh, l, img, all, idle)
    ensures DiskInv(c, Running, disk, lh, l, img, false, false)
    ensures lh == [] ==> DiskInv(c, Finish, disk, lh, l, l, true, true)
    ensures DiskInv(c, WriteLog(0), disk, lh, l, img, false, true)
  {
  }

  lemma EndFields(s: State, p: Pid)
    requires p in s.ops && s.outstanding == |s.ops| > 0
    ensures var t := DoEnd(s, p);
      && t.disk == s.disk && t.cache == s.cache && t.held == s.held && t.lh == s.lh && t.pins == s.pins
      && t.cur == s.cur && t.syncers == s.syncers && t.ncommit == s.ncommit && |t.events| == |s.events| + 1
      && t.ops == s.ops - {p} && t.outstanding == |t.ops| == s.outstanding - 1
      && (t.outstanding > 0 ==>
           t.phase == s.phase && t.asleep == {} && t.durable == s.durable && t.img == s.img)
      && (t.outstanding == 0 && s.lh == [] ==>
           t.phase == Finish && t.asleep == s.asleep && t.durable == |t.events| && t.img == s.cur)
      && (t.outstanding == 0 && s.lh != [] ==>
           t.phase == WriteLog(0) && t.asleep == s.asleep && t.durable == s.durable && t.img == s.img)
  {
    var t := DoEnd(s, p);
    assert t.ops.Keys == s.ops.Keys - {p};
    assert |t.ops| == |t.ops.Keys| && |s.ops| == |s.ops.Keys|;
  }

  lemma EndParts(c: Config, s: State, p: Pid)
    requires Inv(c, s) && Enabled(c, s, EndOp(p))
    ensures OpenInv(c, s) && p in s.ops && p !in s.held.Values
  {
    OpenIs(c, s);
    hide DiskInv, CacheOk, ValidEntries, SleepersOk, PinInv;
  }

  lemma EndStep(c: Config, s: State, p: Pid)
    requires Inv(c, s) && Enabled(c, s, EndOp(p))
    ensures Inv(c, DoEnd(s, p))
  {
    hide Inv, Enabled, DoEnd, DiskInv, CacheOk, ValidEntries, SleepersOk, Pinned;
    EndParts(c, s, p);
    EndFields(s, p);
    EndCache(c, s.disk, s.cache, s.held, s.ops, s.cur, p);
    var t := DoEnd(s, p);
    if t.outstanding > 0 {
      SleepersLater(s.asleep, s.syncers, s.ncommit, |s.events|, |t.events|, s.durable, true);
      NoneAsleep(s.asleep, s.syncers, s.ncommit, |t.events|, s.durable, true);
      OpenIs(c, t);
    } else {
      EndLast(c, s, t);
    }
  }

  lemma NoneAsleep(asleep: set<Pid>, syncers: map<Pid, SyncCall>, ncommit: nat, len: nat, durable: nat, busy: bool)
    requires SleepersOk(asleep, syncers, ncommit, len, durable, busy)
    ensures SleepersOk({}, syncers, ncommit, len, durable, busy)
  {
  }

  /** The last operation has ended: commit begins, or there is nothing to commit. */
  lemma EndLast(c: Config, s: State, t: State)
    requires OpenInv(c, s) && t.outstanding == |t.ops| == 0 && |t.events| == |s.events| + 1
    requires t.disk == s.disk && t.cache == s.cache && t.held == s.held && t.lh == s.lh && t.pins == s.pins
    requires t.cur == s.cur && t.syncers == s.syncers && t.ncommit == s.ncommit && t.asleep == s.asleep
    requires CacheOk(c, s.disk, s.cache, s.held, t.ops, s.cur)
    requires if s.lh == [] then t.phase == Finish && t.durable == |t.events| && t.img == s.cur
             else t.phase == WriteLog(0) && t.durable == s.durable && t.img == s.img
    ensures Inv(c, t)
  {
    hide CacheOk, ValidEntries, DiskInv;
    RunningDisk(c, s.disk, s.lh, s.cur, s.img, false, false);
    assert s.lh == [] ==> multiset(s.lh) == multiset{};
  }

  lemma EndCache(c: Config, disk: Disk, cache: map<nat, Block>, held: map<nat, Pid>,
                 ops: map<Pid, nat>, l: Disk, p: Pid)
    requires |disk| == |l| == c.size && CacheOk(c, disk, cache, held, ops, l) && p !in held.Values
    ensures CacheOk(c, disk, cache, held, ops - {p}, l)
  {
  }

  lemma SyncStep(c: Config, s: State, p: Pid)
    requires Inv(c, s) && Enabled(c, s, Sync(p))
    ensures Inv(c, DoSync(s, p))
  {
  }

  lemma SyncCheckStep(c: Config, s: State, p: Pid)
    requires Inv(c, s) && Enabled(c, s, SyncCheck(p))
    ensures Inv(c, DoSyncCheck(s, p))
  {
    hide Inv, SleepersOk;
    SyncSleepers(c, s, p);
    if s.ncommit < s.syncers[p].n {
      SleepersChange(c, s, s.asleep + {p}, s.syncers);
    } else {
      SleepersChange(c, s, s.asleep, s.syncers - {p});
    }
  }

  lemma SyncSleepers(c: Config, s: State, p: Pid)
    requires Inv(c, s) && Enabled(c, s, SyncCheck(p))
    ensures p in s.syncers && !Recovering(s)
    ensures s.ncommit < s.syncers[p].n ==> SleepersIn(s, s.asleep + {p}, s.syncers)
    ensures SleepersIn(s, s.asleep, s.syncers - {p})
  {
    hide Shape, DiskInv, MemoryInv, PinInv, ValidEntries, SleepersOk;
    SleepersAgain(s.asleep, s.syncers, s.ncommit, |s.events|, s.durable, Committing(s) || s.outstanding > 0, p);
  }

  /** These could be the sleepers of s and the calls of sync in progress. */
  ghost predicate SleepersIn(s: State, asleep: set<Pid>, syncers: map<Pid, SyncCall>) {
    SleepersOk(asleep, syncers, s.ncommit, |s.events|, s.durable, Committing(s) || s.outstanding > 0)
  }

  lemma SleepersChange(c: Config, s: State, asleep: set<Pid>, syncers: map<Pid, SyncCall>)
    requires Inv(c, s) && SleepersIn(s, asleep, syncers) && !Recovering(s)
    ensures Inv(c, s.(asleep := asleep, syncers := syncers))
  {
    hide Shape, DiskInv, MemoryInv, PinInv, ValidEntries, SleepersOk;
  }

  lemma SleepersAgain(asleep: set<Pid>, syncers: map<Pid, SyncCall>, ncommit: nat, len: nat, durable: nat,
                      busy: bool, p: Pid)
    requires SleepersOk(asleep, syncers, ncommit, len, durable, busy) && p in syncers
    ensures ncommit < syncers[p].n ==> SleepersOk(asleep + {p}, syncers, ncommit, len, durable, busy)
    ensures SleepersOk(asleep, syncers - {p}, ncommit, len, durable, busy)
  {
  }

  lemma CrashStep(c: Config, s: State)
    requires Inv(c, s)
    ensures Inv(c, DoCrash(s))
  {
  }

  // ---- steps of commit and recovery --------------------------------------------------------

  /** Neither commit nor recovery can get stuck or write outside the disk. */
  lemma CommitIsEnabled(c: Config, s: State)
    requires Inv(c, s)
    ensures Committing(s) ==> CommitEnabled(c, s)
    ensures Recovering(s) ==> RecoverEnabled(c, s)
  {
  }

  lemma WriteLogUnfold(c: Config, s: State)
    requires CommitEnabled(c, s) && s.phase.WriteLog? && s.phase.k < |s.lh|
    ensures var j, x := c.start + 1 + s.phase.k, Bread(s, s.lh[s.phase.k]);
      DoCommit(c, s) == s.(disk := s.disk[j := x], cache := s.cache[j := x], phase := WriteLog(s.phase.k + 1))
  {
  }

  lemma LoggedCached(c: Config, s: State)
    requires Inv(c, s) && s.phase.WriteLog? && s.phase.k < |s.lh|
    ensures c.start + 1 + s.phase.k < c.size && !Home(c, c.start + 1 + s.phase.k)
    ensures Home(c, s.lh[s.phase.k]) && Bread(s, s.lh[s.phase.k]) == s.cur[s.lh[s.phase.k]]
  {
  }

  /** The invariant inside commit. */
  ghost predicate BusyInv(c: Config, s: State) {
    && Shape(c, s.disk, s.cur, s.img, s.cache, s.held) && ValidEntries(c, s.lh) && Committing(s)
    && s.outstanding == |s.ops| == 0 && s.durable <= |s.events|
    && CacheOk(c, s.disk, s.cache, s.held, s.ops, s.cur) && PinInv(s.phase, s.cache, s.pins, s.lh)
    && DiskInv(c, s.phase, s.disk, s.lh, s.cur, s.img, s.durable == |s.events|, true)
    && SleepersOk(s.asleep, s.syncers, s.ncommit, |s.events|, s.durable, true)
  }

  lemma BusyIs(c: Config, s: State)
    requires Committing(s)
    ensures Inv(c, s) <==> BusyInv(c, s)
  {
    hide Shape, CacheOk, ValidEntries, PinInv, DiskInv, SleepersOk;
  }

  lemma WriteLogStep(c: Config, s: State)
    requires Inv(c, s) && s.phase.WriteLog? && s.phase.k < |s.lh| && CommitEnabled(c, s)
    ensures Inv(c, DoCommit(c, s))
  {
    hide Inv, DiskInv, SleepersOk, CacheOk, ValidEntries, Pinned, DoCommit, CommitEnabled, Bread;
    BusyIs(c, s);
    WriteLogUnfold(c, s);
    LoggedCached(c, s);
    BusyIs(c, DoCommit(c, s));
    var k, j := s.phase.k, c.start + 1 + s.phase.k;
    LogBlockDisk(c, s.disk, s.lh, s.cur, s.img, s.durable == |s.events|, k);
    BwriteCache(c, s.disk, s.cache, s.held, s.ops, s.cur, j, s.cur[s.lh[k]]);
    GrowCache(s.phase, s.cache, s.pins, s.lh, j, s.cur[s.lh[k]]);
  }

  lemma CommitUnfold(c: Config, s: State)
    requires CommitEnabled(c, s) && s.phase.WriteLog? && s.phase.k == |s.lh|
    ensures HeaderFits(s.lh) && c.start < |s.disk|
    ensures var h := EncodeHead(Bread(s, c.start), s.lh);
      && DecodeHead(h) == s.lh
      && DoCommit(c, s) == s.(disk := s.disk[c.start := h], cache := s.cache[c.start := h],
                              phase := Install(0), durable := |s.events|, img := s.cur)
  {
    hide EncodeHead, DecodeHead;
    HeadRoundTrip(Bread(s, c.start), s.lh);
  }

  lemma CommitPoint(c: Config, s: State)
    requires Inv(c, s) && s.phase.WriteLog? && s.phase.k == |s.lh| && CommitEnabled(c, s)
    ensures Inv(c, DoCommit(c, s))
  {
    hide Inv, DiskInv, SleepersOk, CacheOk, ValidEntries, Pinned;
    hide DoCommit, CommitEnabled, Bread, EncodeHead, DecodeHead;
    BusyIs(c, s);
    CommitUnfold(c, s);
    BusyIs(c, DoCommit(c, s));
    var h := EncodeHead(Bread(s, c.start), s.lh);
    CommitDisk(c, s.disk, s.lh, s.cur, s.img, s.durable == |s.events|, h);
    BwriteCache(c, s.disk, s.cache, s.held, s.ops, s.cur, c.start, h);
    SleepersDone(s.asleep, s.syncers, s.ncommit, |s.events|, s.durable);
    GrowCache(s.phase, s.cache, s.pins, s.lh, c.start, h);
    assert s.lh[0..] == s.lh;
  }

  lemma SleepersDone(asleep: set<Pid>, syncers: map<Pid, SyncCall>, ncommit: nat, len: nat, durable: nat)
    requires SleepersOk(asleep, syncers, ncommit, len, durable, true) && durable <= len
    ensures SleepersOk(asleep, syncers, ncommit, len, len, true)
  {
  }

  /** The k-th log block holds what belongs in the k-th entry's home. */
  lemma InstallRead(c: Config, phase: Phase, disk: Disk, lh: seq<nat>, l: Disk, img: Disk, all: bool, idle: bool)
    requires ValidConfig(c) && |disk| == |l| == |img| == c.size && ValidEntries(c, lh)
    requires (phase.Install? || phase.RecInstall?) && DiskInv(c, phase, disk, lh, l, img, all, idle)
    ensures all && img == l && phase.k <= |lh|
    ensures phase.k < |lh| ==>
      && Home(c, lh[phase.k]) && c.start + 1 + phase.k < c.size && !Home(c, c.start + 1 + phase.k)
      && disk[c.start + 1 + phase.k] == l[lh[phase.k]]
  {
    if phase.k < |lh| { assert Home(c, lh[phase.k]); }
  }

  lemma InstallFacts(c: Config, s: State)
    requires Inv(c, s) && (s.phase.Install? || s.phase.RecInstall?)
    ensures s.durable == |s.events| && s.img == s.cur && s.phase.k <= |s.lh| && s.outstanding == 0
    ensures s.phase.k < |s.lh| ==>
      Home(c, s.lh[s.phase.k]) && Bread(s, c.start + 1 + s.phase.k) == s.cur[s.lh[s.phase.k]]
  {
    hide DiskInv, ValidEntries, PinInv, SleepersOk;
    InstallRead(c, s.phase, s.disk, s.lh, s.cur, s.img, s.durable == |s.events|, s.outstanding == 0);
    hide Home;
  }

  lemma InstallUnfold(c: Config, s: State)
    requires CommitEnabled(c, s) && s.phase.Install? && s.phase.k < |s.lh|
    ensures var b, x := s.lh[s.phase.k], Bread(s, c.start + 1 + s.phase.k);
      DoCommit(c, s) == s.(disk := s.disk[b := x], cache := s.cache[b := x],
                           pins := s.pins - multiset{b}, phase := Install(s.phase.k + 1))
  {
  }

  lemma InstallStep(c: Config, s: State)
    requires Inv(c, s) && s.phase.Install? && s.phase.k < |s.lh| && CommitEnabled(c, s)
    ensures Inv(c, DoCommit(c, s))
  {
    hide DiskInv, SleepersOk, CacheOk, ValidEntries, DoCommit, CommitEnabled;
    InstallFacts(c, s);
    InstallUnfold(c, s);
    var k, b, x := s.phase.k, s.lh[s.phase.k], s.cur[s.lh[s.phase.k]];
    InstallDisk(c, s.disk, s.lh, s.cur, k);
    BwriteCache(c, s.disk, s.cache, s.held, s.ops, s.cur, b, x);
    UnpinOne(s.cache, s.pins, s.lh, k, x);
  }

  lemma UnpinOne(cache: map<nat, Block>, pins: multiset<nat>, lh: seq<nat>, k: nat, x: Block)
    requires k < |lh| && Pinned(cache, pins, lh[k..])
    ensures Pinned(cache[lh[k] := x], pins - multiset{lh[k]}, lh[k + 1..])
  {
    assert lh[k..] == [lh[k]] + lh[k + 1..];
    assert multiset(lh[k..]) == multiset{lh[k]} + multiset(lh[k + 1..]);
    assert forall b :: b in lh[k + 1..] ==> b in lh[k..];
  }

  lemma ClearStep(c: Config, s: State)
    requires Inv(c, s) && s.phase.Install? && s.phase.k == |s.lh| && CommitEnabled(c, s)
    ensures Inv(c, DoCommit(c, s))
  {
    hide DiskInv, SleepersOk, CacheOk;
    var h := EncodeHead(Bread(s, c.start), []);
    InstallFacts(c, s);
    EmptyHead(Bread(s, c.start));
    assert s.lh[|s.lh|..] == [];
    ClearDisk(c, s.disk, s.lh, s.cur, h);
    BwriteCache(c, s.disk, s.cache, s.held, s.ops, s.cur, c.start, h);
  }

  lemma FinishStep(c: Config, s: State)
    requires Inv(c, s) && s.phase.Finish? && CommitEnabled(c, s)
    ensures Inv(c, DoCommit(c, s))
  {
  }

  lemma RecReadStep(c: Config, s: State)
    requires Inv(c, s) && s.phase.RecRead? && RecoverEnabled(c, s)
    ensures Inv(c, DoRecover(c, s))
  {
  }

  lemma RecInstallStep(c: Config, s: State)
    requires Inv(c, s) && s.phase.RecInstall? && s.phase.k < |s.lh| && RecoverEnabled(c, s)
    ensures Inv(c, DoRecover(c, s))
  {
    hide DiskInv, SleepersOk, ValidEntries;
    InstallFacts(c, s);
    var k, b, x := s.phase.k, s.lh[s.phase.k], s.cur[s.lh[s.phase.k]];
    assert DoRecover(c, s) == s.(disk := s.disk[b := x], cache := s.cache[b := x],
                                 phase := RecInstall(k + 1));
    RecInstallDisk(c, s.disk, s.lh, s.cur, k);
  }

  lemma RecClearStep(c: Config, s: State)
    requires Inv(c, s) && s.phase.RecInstall? && s.phase.k == |s.lh| && RecoverEnabled(c, s)
    ensures Inv(c, DoRecover(c, s))
  {
    hide SleepersOk;
    var h := EncodeHead(Bread(s, c.start), []);
    InstallFacts(c, s);
    EmptyHead(Bread(s, c.start));
    ClearDisk(c, s.disk, s.lh, s.cur, h);
  }

  // ---- all steps ---------------------------------------------------------------------------

  lemma BootInv(c: Config, s: State)
    requires Boot(c, s)
    ensures Inv(c, s)
  {
  }

  lemma CommitStep(c: Config, s: State)
    requires Inv(c, s) && CommitEnabled(c, s)
    ensures Inv(c, DoCommit(c, s))
  {
    if s.phase.WriteLog? {
      if s.phase.k < |s.lh| { WriteLogStep(c, s); } else { CommitPoint(c, s); }
    } else if s.phase.Install? {
      if s.phase.k < |s.lh| { InstallStep(c, s); } else { ClearStep(c, s); }
    } else {
      FinishStep(c, s);
    }
  }

  lemma RecoverStep(c: Config, s: State)
    requires Inv(c, s) && RecoverEnabled(c, s)
    ensures Inv(c, DoRecover(c, s))
  {
    if s.phase.RecRead? { RecReadStep(c, s); }
    else if s.phase.k < |s.lh| { RecInstallStep(c, s); }
    else { RecClearStep(c, s); }
  }

  lemma StepInv(c: Config, s: State, step: Step)
    requires Inv(c, s) && Enabled(c, s, step)
    ensures Inv(c, Do(c, s, step))
  {
    hide Inv, CommitEnabled, RecoverEnabled;
    hide DoCommit, DoRecover, DoLogWrite, DoEnd, DoBegin, DoCrash, DoSync, DoSyncCheck;
    assert ValidConfig(c) && |s.disk| == c.size by { InvSizes(c, s); }
    match step
    case LogWrite(p, b) => LogWriteStep(c, s, p, b);
    case BeginOp(p) => BeginStep(c, s, p);
    case EndOp(p) => EndStep(c, s, p);
    case Crash => CrashStep(c, s);
    case Sync(p) => SyncStep(c, s, p);
    case SyncCheck(p) => SyncCheckStep(c, s, p);
    case Commit => CommitStep(c, s);
    case Recover => RecoverStep(c, s);
    case Fill(b) => FillStep(c, s, b);
    case Evict(b) => EvictStep(c, s, b);
    case Hold(p, b) => HoldStep(c, s, p, b);
    case Release(p, b) => ReleaseStep(c, s, p, b);
    case Modify(p, b, x) => ModifyStep(c, s, p, b, x);
  }

  lemma InvSizes(c: Config, s: State)
    requires Inv(c, s)
    ensures ValidConfig(c) && |s.disk| == |s.cur| == |s.img| == c.size && s.durable <= |s.events|
    ensures s.outstanding == |s.ops|
  {
  }
}
