/** The code of log.c, working on its fields in place. Every method extends a run of the
    protocol by the steps it takes, so all that is proved of runs holds at each single disk
    write that these loops make. */
module LogImpl {
  import opened Blocks
  import opened LogProtocol
  import opened LogInvariant
  import opened LogRuns

  /** How far install_trans has come, in recovery or in commit. */
  function Stage(recovering: bool, k: nat): Phase {
    if recovering then RecInstall(k) else Install(k)
  }

  /** Only commit pinned the buffer, so only commit unpins it. */
  function Unpin(recovering: bool, pins: multiset<nat>, b: nat): multiset<nat> {
    if recovering then pins else pins - multiset{b}
  }

  class Log {
    const c: Config
    var disk: Disk
    // the buffer cache: contents, pin counts, and which process holds which buffer
    var cache: map<nat, Block>
    var pins: multiset<nat>
    var held: map<nat, Pid>
    // struct log
    var n: nat
    const block: array<nat>
    var outstanding: nat
    var committing: bool
    var ncommit: nat
    // processes asleep on &log
    var sleepers: set<Pid>
    ghost var run: seq<State>

    ghost predicate Matches(s: State)
      reads this, block
    {
      && block.Length == LOGSIZE && n <= LOGSIZE
      && s.disk == disk && s.cache == cache && s.pins == pins && s.held == held
      && s.lh == block[..n] && s.outstanding == outstanding && Committing(s) == committing
      && s.ncommit == ncommit && s.asleep == sleepers
    }

    ghost predicate Valid()
      reads this, block
    {
      run != [] && IsRun(c, run) && Matches(run[|run| - 1])
    }

    /** The state of the protocol now. */
    ghost function Now(): State
      reads this
      requires run != []
    {
      run[|run| - 1]
    }

    /** Power on with the disk that mkfs or an earlier boot left; the log is recovered next. */
    constructor (c: Config, d: Disk)
      requires ValidConfig(c) && |d| == c.size && WordAt(d[c.start], 0) == 0
      ensures Valid() && this.c == c && disk == d && Now().phase == RecRead && Now().init == d
      ensures fresh(block) && |run| == 1
    {
      this.c := c;
      disk, cache, pins, held := d, map[], multiset{}, map[];
      n, block, outstanding, committing, ncommit, sleepers := 0, new nat[LOGSIZE], 0, false, 0, {};
      run := [State(d, map[], multiset{}, map[], [], 0, RecRead, 0, {}, map[], map[], [], 0, d, d, d)];
    }

    /** Power on after the run before was stopped, at whatever write, with the disk it left. */
    constructor Reboot(c: Config, d: Disk, ghost before: seq<State>)
      requires before != [] && IsRun(c, before) && d == before[|before| - 1].disk
      ensures Valid() && this.c == c && disk == d && fresh(block)
      ensures before[|before| - 1].durable <= |before[|before| - 1].events|
      ensures run == before + [DoCrash(before[|before| - 1])]
    {
      this.c := c;
      disk, cache, pins, held := d, map[], multiset{}, map[];
      n, block, outstanding, committing, ncommit, sleepers := 0, new nat[LOGSIZE], 0, false, 0, {};
      CrashEnabled(c, before);
      ghost var r := Extend(c, before, Crash);
      run := r;
    }

    /** bread: a block that is not cached is read from disk. */
    method Bread(b: nat) returns (x: Block)
      requires Valid() && b < c.size
      modifies this`cache, this`run
      ensures Valid() && old(run) <= run && b in cache
      ensures b < |old(disk)| && x == cache[b] == LogProtocol.Bread(old(Now()), b)
      ensures Now() == old(Now()).(cache := cache) && x == LogProtocol.Bread(Now(), b)
      ensures forall a :: a in old(cache) ==> a in cache && cache[a] == old(cache)[a]
      ensures forall i :: |old(run)| <= i < |run| ==> run[i].img == old(Now()).img
    {
      hide IsRun, Inv, Next;
      assert |disk| == c.size by { RunInv(c, run, |run| - 1); InvSizes(c, Now()); }
      if b !in cache {
        ghost var r := Extend(c, run, Fill(b));
        cache := cache[b := disk[b]];
        run := r;
      }
      x := cache[b];
    }

    /** Two buffers at a time, as the copying loops hold them. */
    method BreadTwo(a: nat, b: nat) returns (x: Block, y: Block)
      requires Valid() && a < c.size && b < c.size
      modifies this`cache, this`run
      ensures Valid() && ExtendsAt(old(run), old(Now()).img) && |disk| == c.size
      ensures Now() == old(Now()).(cache := cache)
      ensures x == LogProtocol.Bread(Now(), a) && y == LogProtocol.Bread(Now(), b)
    {
      hide IsRun, Inv, Next;
      Sizes(c, run);
      x := Bread(a);
      y := Bread(b);
      assert a in cache && cache[a] == x;
    }

    /** Take the step the concrete fields have just been made to follow. */
    ghost method Advance(step: Step)
      requires run != [] && IsRun(c, run) && Enabled(c, Now(), step)
      modifies this`run
      ensures ValidConfig(c) && |old(Now()).disk| == c.size
      ensures run == old(run) + [Do(c, old(Now()), step)] && IsRun(c, run)
    {
      hide IsRun, Do, Enabled;
      run := Extend(c, run, step);
    }

    /** The concrete fields have caught up with the last state of r. */
    ghost method Follow(r: seq<State>)
      requires r != [] && IsRun(c, r) && Matches(r[|r| - 1])
      modifies this`run
      ensures run == r && Valid()
    {
      run := r;
    }

    ghost predicate ExtendsAt(before: seq<State>, img: Disk)
      reads this
    {
      before <= run && forall i :: |before| <= i < |run| ==> run[i].img == img
    }

    /** write_log: copy every logged block from the cache to its place in the log. */
    method WriteLog()
      requires Valid() && Now().phase == LogProtocol.WriteLog(0)
      modifies this`disk, this`cache, this`run
      ensures Valid() && ExtendsAt(old(run), old(Now()).img)
      ensures Now() == old(Now()).(disk := disk, cache := cache, phase := LogProtocol.WriteLog(n))
    {
      hide IsRun, Inv, Next;
      ghost var s0 := Now();
      for tail := 0 to n
        invariant Valid() && ExtendsAt(old(run), s0.img)
        invariant Now() == s0.(disk := disk, cache := cache, phase := LogProtocol.WriteLog(tail))
      {
        CopyToLog(tail);
      }
    }

    /** The body of write_log's loop. */
    method CopyToLog(tail: nat)
      requires Valid() && Now().phase == LogProtocol.WriteLog(tail) && tail < n
      modifies this`disk, this`cache, this`run
      ensures Valid() && ExtendsAt(old(run), old(Now()).img)
      ensures Now() == old(Now()).(disk := disk, cache := cache, phase := LogProtocol.WriteLog(tail + 1))
    {
      hide IsRun, Inv, Next;
      SizeAt(c, run, tail);
      assert block[tail] == block[..n][tail];
      var to, from := BreadTwo(c.start + tail + 1, block[tail]);
      ghost var r := RunWriteLog(c, run);
      disk := disk[c.start + tail + 1 := from];
      cache := cache[c.start + tail + 1 := from];
      Follow(r);
    }

    /** The new contents of the header block: n and n block numbers over the old ones. */
    method FillHeader(h0: Block) returns (h: Block)
      requires block.Length == LOGSIZE && n <= LOGSIZE && HeaderFits(block[..n])
      ensures h == EncodeHead(h0, block[..n])
    {
      h := SetWord(h0, 0, n);
      ghost var h1 := h;
      for i := 0 to n
        invariant HeaderFits(block[..i]) && h == EncodeEntries(h1, block[..i])
      {
        assert block[..i + 1][..i] == block[..i] && block[i] == block[..n][i];
        h := SetWord(h, i + 1, block[i]);
      }
    }

    /** write_head of commit: the write that makes the transaction durable. */
    method CommitHead()
      requires Valid() && Now().phase == LogProtocol.WriteLog(n)
      modifies this`disk, this`cache, this`run
      ensures Valid() && old(run) < run
      ensures Now() == old(Now()).(disk := disk, cache := cache, phase := Install(0),
                                   durable := |old(Now()).events|, img := old(Now()).cur)
      ensures forall i :: |old(run)| <= i < |run| - 1 ==> run[i].img == old(Now()).img
    {
      hide IsRun, Inv, Next, EncodeHead, LogProtocol.Bread;
      Sizes(c, run);
      var buf := Bread(c.start);
      var h := FillHeader(buf);
      ghost var r := RunCommitHead(c, run);
      disk, cache := disk[c.start := h], cache[c.start := h];
      Follow(r);
    }

    /** install_trans: copy every logged block from the log to its home, and unpin it
        unless this is recovery. */
    method InstallTrans(recovering: bool)
      requires Valid() && Now().phase == Stage(recovering, 0)
      modifies this`disk, this`cache, this`pins, this`run
      ensures Valid() && ExtendsAt(old(run), old(Now()).img)
      ensures Now() == old(Now()).(disk := disk, cache := cache, pins := pins,
                                   phase := Stage(recovering, n))
    {
      hide IsRun, Inv, Next;
      ghost var s0 := Now();
      for tail := 0 to n
        invariant Valid() && ExtendsAt(old(run), s0.img)
        invariant Now() == s0.(disk := disk, cache := cache, pins := pins,
                               phase := Stage(recovering, tail))
      {
        CopyHome(tail, recovering);
      }
    }

    method Bunpin(recovering: bool, b: nat)
      modifies this`pins
      ensures pins == Unpin(recovering, old(pins), b)
    {
      if !recovering { pins := pins - multiset{b}; }
    }

    /** bwrite of a home block from its log block, and bunpin. */
    method PutHome(tail: nat, lbuf: Block, recovering: bool)
      requires Valid() && Now().phase == Stage(recovering, tail) && tail < n
      requires c.start + tail + 1 < |disk| && lbuf == LogProtocol.Bread(Now(), c.start + tail + 1)
      modifies this`disk, this`cache, this`pins, this`run
      ensures Valid() && ExtendsAt(old(run), old(Now()).img)
      ensures Now() == old(Now()).(disk := disk, cache := cache, pins := pins,
                                   phase := Stage(recovering, tail + 1))
    {
      hide IsRun, Inv, Next, Unpin;
      var b := block[tail];
      ghost var r := RunInstall(c, run, recovering, tail, b, lbuf);
      disk := disk[b := lbuf];
      cache := cache[b := lbuf];
      Bunpin(recovering, b);
      Follow(r);
    }

    /** The body of install_trans's loop. */
    method CopyHome(tail: nat, recovering: bool)
      requires Valid() && Now().phase == Stage(recovering, tail) && tail < n
      modifies this`disk, this`cache, this`pins, this`run
      ensures Valid() && ExtendsAt(old(run), old(Now()).img)
      ensures Now() == old(Now()).(disk := disk, cache := cache, pins := pins,
                                   phase := Stage(recovering, tail + 1))
    {
      hide IsRun, Inv, Next;
      SizeAt(c, run, tail);
      assert block[tail] == block[..n][tail];
      var lbuf, dbuf := BreadTwo(c.start + tail + 1, block[tail]);
      PutHome(tail, lbuf, recovering);
    }

    /** n = 0 and write_head: the log is empty again. */
    method ClearHead(recovering: bool)
      requires Valid() && Now().phase == Stage(recovering, n)
      modifies this`disk, this`cache, this`n, this`run
      ensures Valid() && ExtendsAt(old(run), old(Now()).img)
      ensures n == 0
      ensures Now() == old(Now()).(disk := disk, cache := cache, lh := [],
                                   phase := if recovering then Running else Finish)
    {
      hide IsRun, Inv, Next, EncodeHead, LogProtocol.Bread;
      DiskSize(c, run);
      var buf := Bread(c.start);
      ghost var r := RunClear(c, run);
      n := 0;
      var h := FillHeader(buf);
      assert block[..0] == [];
      disk, cache := disk[c.start := h], cache[c.start := h];
      Follow(r);
    }

    /** recover_from_log, from power on until the first operation may begin. */
    method RecoverFromLog()
      requires Valid() && Now().phase == RecRead
      modifies this, block
      ensures Valid() && ExtendsAt(old(run), old(Now()).img)
      ensures Now().phase == Running && n == 0 && outstanding == 0
      ensures Now().events == old(Now()).events && Now().init == old(Now()).init
      ensures SameHome(c, disk, Replay(Now().init, Now().events))
    {
      hide IsRun, Inv, Next, SameHome;
      RunIdle(c, run);
      ReadHead();
      InstallTrans(true);
      ClearHead(true);
      QuiescentLog(c, run, |run| - 1);
      InitKept(c, run);
    }

    /** read_head */
    method ReadHead()
      requires Valid() && Now().phase == RecRead
      modifies this`cache, this`n, this`run, block
      ensures Valid() && ExtendsAt(old(run), old(Now()).img)
      ensures Now() == old(Now()).(cache := cache, lh := block[..n], phase := RecInstall(0))
    {
      hide IsRun, Inv, Next, LogProtocol.Bread;
      DiskSize(c, run);
      var buf := Bread(c.start);
      ghost var r := RunReadHead(c, run);
      n := WordAt(buf, 0);
      for i := 0 to n
        invariant forall j :: 0 <= j < i ==> block[j] == WordAt(buf, 1 + j)
        modifies block
      {
        block[i] := WordAt(buf, 1 + i);
      }
      assert block[..n] == DecodeHead(buf);
      Follow(r);
    }

    /** commit, for a log that is not empty. Up to step at of the run the disk recovers to the
        old image, from then on to the new one. */
    method CommitLog() returns (ghost at: nat)
      requires Valid() && Now().phase == LogProtocol.WriteLog(0)
      modifies this`disk, this`cache, this`pins, this`n, this`run
      ensures Valid() && n == 0 && Now().phase == Finish
      ensures Now() == old(Now()).(disk := disk, cache := cache, pins := pins, lh := [], phase := Finish,
                                   durable := |old(Now()).events|, img := old(Now()).cur)
      ensures old(run) < run && |old(run)| <= at < |run|
      ensures ImgAt(run, |old(run)|, at, old(Now()).img) && ImgAt(run, at, |run|, old(Now()).cur)
    {
      hide IsRun, Inv, Next;
      ghost var img, cur := Now().img, Now().cur;
      WriteLog();
      CommitHead();
      at := |run| - 1;
      InstallTrans(false);
      ClearHead(false);
    }

    /** commit and the end of end_op: at every step of the run the disk recovers to exactly
        the old image (before at) or exactly the new one (from at on). */
    method Commit() returns (ghost at: nat)
      requires Valid() && committing
      requires Now().phase == (if n > 0 then LogProtocol.WriteLog(0) else Finish)
      modifies this
      ensures Valid() && old(run) < run && !committing && n == 0
      ensures Now() == old(Now()).(disk := disk, cache := cache, pins := pins, lh := [], phase := Running,
                                   durable := |old(Now()).events|, img := old(Now()).cur,
                                   ncommit := ncommit, asleep := {})
      ensures ncommit == old(ncommit) + 1 && |old(run)| <= at < |run|
      ensures Recovers(run, |old(run)| - 1, at, old(Now()).img)
      ensures Recovers(run, at, |run|, old(Now()).cur)
    {
      hide IsRun, Inv, Next, SameHome, Recovered, Recovers;
      ghost var s0, l := Now(), |run|;
      FinishFacts(c, run);
      if n > 0 {
        at := CommitLog();
      } else {
        at := l;
      }
      ghost var r := RunFinish(c, run);
      committing := false;
      ncommit := ncommit + 1;
      sleepers := {};
      run := r;
      ImgRecovers(c, run, l - 1, at, s0.img);
      ImgRecovers(c, run, at, |run|, s0.cur);
    }

    ghost predicate ImgAt(tr: seq<State>, lo: nat, hi: nat, img: Disk) {
      forall i :: lo <= i < hi && i < |tr| ==> tr[i].img == img
    }

    ghost predicate Recovers(tr: seq<State>, lo: nat, hi: nat, img: Disk) {
      forall i :: lo <= i < hi && i < |tr| ==>
        c.start < |tr[i].disk| && SameHome(c, Recovered(c, tr[i].disk), img)
    }

    lemma ImgRecovers(c: Config, tr: seq<State>, lo: nat, hi: nat, img: Disk)
      requires c == this.c && IsRun(c, tr) && ImgAt(tr, lo, hi, img)
      ensures Recovers(tr, lo, hi, img)
    {
      hide IsRun, SameHome, Recovered;
      forall i | lo <= i < hi && i < |tr|
        ensures c.start < |tr[i].disk| && SameHome(c, Recovered(c, tr[i].disk), img)
      {
        RecoversToImg(c, tr, i);
      }
    }

    /** begin_op: one pass of its loop. False: the caller sleeps on the log and will try again. */
    method BeginOp(p: Pid) returns (started: bool)
      requires Valid() && !Recovering(Now()) && Idle(Now(), p)
      modifies this`outstanding, this`sleepers, this`run
      ensures Valid() && run == old(run) + [DoBegin(old(Now()), p)]
      ensures started <==> p in Now().ops
      ensures started <==> !old(committing) && old(n) + (old(outstanding) + 1) * MAXOPBLOCKS <= LOGSIZE
    {
      hide IsRun, Inv, Next;
      Advance(LogProtocol.BeginOp(p));
      if committing {
        sleepers := sleepers + {p};
        started := false;
      } else if n + (outstanding + 1) * MAXOPBLOCKS > LOGSIZE {
        sleepers := sleepers + {p};
        started := false;
      } else {
        outstanding := outstanding + 1;
        started := true;
      }
    }

    /** end_op up to its first release of the lock: true for the last operation. */
    method LeaveOp(p: Pid) returns (doCommit: bool)
      requires Valid() && p in Now().ops && p !in held.Values
      modifies this`outstanding, this`committing, this`sleepers, this`run
      ensures Valid() && p in old(Now()).ops && old(Now()).outstanding > 0
      ensures run == old(run) + [DoEnd(old(Now()), p)]
      ensures doCommit <==> old(outstanding) == 1
      ensures doCommit <==> committing
      ensures doCommit ==> Now().phase == if n > 0 then LogProtocol.WriteLog(0) else Finish
      ensures !doCommit ==> Now().phase == Running
    {
      hide IsRun, Inv, Next, Do, DoEnd, Enabled;
      LastEnds(c, run, p);
      Advance(LogProtocol.EndOp(p));
      outstanding := outstanding - 1;
      doCommit := false;
      if outstanding == 0 {
        doCommit := true;
        committing := true;
      } else {
        sleepers := {};
      }
    }

    /** end_op: the last operation commits for all. */
    method EndOp(p: Pid)
      requires Valid() && p in Now().ops && p !in held.Values
      modifies this
      ensures Valid() && old(run) < run && Now().phase == Running
      ensures Now().events == old(Now()).events + [End(p)]
      ensures old(outstanding) > 1 ==> run == old(run) + [DoEnd(old(Now()), p)]
      ensures old(outstanding) == 1 ==> n == 0 && Now().durable == |Now().events|
    {
      hide IsRun, Inv, Next, Do, Recovers;
      var doCommit := LeaveOp(p);
      if doCommit {
        ghost var at := Commit();
      }
    }

    /** log_write, called with buffer b held by p. True: the panic "too big a transaction". */
    method LogWrite(p: Pid, b: nat) returns (panicked: bool)
      requires Valid() && p in Now().ops && b in held && held[b] == p
      requires b in Now().lh || Now().ops[p] < c.budget
      modifies this`n, this`pins, this`run, block
      ensures panicked <==> old(n) >= LOGSIZE || old(n) >= c.nlog - 1
      ensures panicked ==> run == old(run) && n == old(n) && pins == old(pins) && block[..] == old(block[..])
      ensures !panicked ==> Valid() && b in old(Now()).cache && run == old(run) + [DoLogWrite(old(Now()), p, b)]
    {
      hide IsRun, Inv, Next;
      NoOrderPanics(c, run, |run| - 1, p);
      HeldCached(c, run, b);
      if n >= LOGSIZE || n >= c.nlog - 1 {
        return true;
      }
      var i := 0;
      while i < n
        invariant 0 <= i <= n && b !in block[..i]
      {
        if block[i] == b { break; }
        i := i + 1;
      }
      assert i == n ==> b !in block[..n];
      assert i < n ==> block[..n][i] == b;
      Advance(LogProtocol.LogWrite(p, b));
      ghost var lh := block[..n];
      block[i] := b;
      if i == n {
        pins := pins + multiset{b};
        n := n + 1;
        assert block[..n] == lh + [b];
      } else {
        assert block[..n] == lh;
      }
      panicked := false;
    }

    /** sys_sync up to its return or its first sleep; later passes are SyncCheck. */
    method Sync(p: Pid) returns (done: bool)
      requires Valid() && !Recovering(Now()) && Idle(Now(), p)
      modifies this`sleepers, this`run
      ensures Valid() && run == old(run) + [DoSync(old(Now()), p)]
      ensures done ==> Now().durable == |Now().events|
      ensures !done ==> p in Now().syncers && Now().syncers[p].n == ncommit + 1
    {
      hide IsRun, Inv, Next;
      if committing || outstanding > 0 {
        Advance(LogProtocol.Sync(p));
        sleepers := sleepers + {p};
        done := false;
      } else {
        Advance(LogProtocol.Sync(p));
        RunInv(c, run, |run| - 1);
        SyncIdle(c, Now());
        done := true;
      }
    }

    /** The loop of sys_sync after a wakeup: n is the number of commits to wait for. What was
        done before the call is durable when it ends. */
    method SyncCheck(p: Pid, n: nat) returns (done: bool)
      requires Valid() && p in Now().syncers && p !in sleepers && n == Now().syncers[p].n
      modifies this`sleepers, this`run
      ensures Valid() && run == old(run) + [DoSyncCheck(old(Now()), p)]
      ensures done <==> n <= ncommit
      ensures done ==> old(Now()).syncers[p].need <= Now().durable
      ensures !done ==> p in sleepers
    {
      hide IsRun, Inv, Next;
      assert n <= ncommit ==> Now().syncers[p].need <= Now().durable by {
        RunInv(c, run, |run| - 1);
        if n <= ncommit { SyncDue(c, Now(), p); }
      }
      Advance(LogProtocol.SyncCheck(p));
      if ncommit < n {
        sleepers := sleepers + {p};
        done := false;
      } else {
        done := true;
      }
    }
  }

  /** initlog at a boot after a crash: the home blocks are what the operations that were durable
      when the machine stopped make of the first disk. */
  method Initlog(c: Config, d: Disk, ghost before: seq<State>) returns (log: Log)
    requires before != [] && IsRun(c, before) && d == before[|before| - 1].disk
    ensures fresh(log) && log.Valid() && log.c == c && log.Now().phase == Running && log.n == 0
    ensures var s := before[|before| - 1];
      s.durable <= |s.events| && SameHome(c, log.disk, Replay(before[0].disk, s.events[..s.durable]))
  {
    hide IsRun, Inv, Next, SameHome;
    InitKept(c, before);
    log := new Log.Reboot(c, d, before);
    log.RecoverFromLog();
  }

  // ---- what the code needs to know of its runs ------------------------------------------------

  lemma Sizes(c: Config, tr: seq<State>)
    requires tr != [] && IsRun(c, tr)
    ensures var s := tr[|tr| - 1];
      && ValidConfig(c) && |s.disk| == |s.cur| == c.size && HeaderFits(s.lh) && |s.lh| <= LOGSIZE
      && forall i :: 0 <= i < |s.lh| ==> s.lh[i] < c.size && c.start + 1 + i < c.size
  {
    hide IsRun, Next;
    RunInv(c, tr, |tr| - 1);
    InvSizes(c, tr[|tr| - 1]);
    EntriesFit(c, tr[|tr| - 1]);
  }

  lemma DiskSize(c: Config, tr: seq<State>)
    requires tr != [] && IsRun(c, tr)
    ensures ValidConfig(c) && |tr[|tr| - 1].disk| == c.size
  {
    hide IsRun;
    Sizes(c, tr);
  }

  lemma CrashEnabled(c: Config, tr: seq<State>)
    requires tr != [] && IsRun(c, tr)
    ensures Enabled(c, tr[|tr| - 1], Crash) && tr[|tr| - 1].durable <= |tr[|tr| - 1].events|
  {
    hide IsRun, Next;
    RunInv(c, tr, |tr| - 1);
    InvSizes(c, tr[|tr| - 1]);
  }

  lemma SizeAt(c: Config, tr: seq<State>, k: nat)
    requires tr != [] && IsRun(c, tr) && k < |tr[|tr| - 1].lh|
    ensures tr[|tr| - 1].lh[k] < c.size && c.start + 1 + k < c.size
  {
    hide IsRun;
    Sizes(c, tr);
  }

  lemma EntriesFit(c: Config, s: State)
    requires Inv(c, s)
    ensures HeaderFits(s.lh) && |s.lh| <= LOGSIZE
    ensures forall i :: 0 <= i < |s.lh| ==> s.lh[i] < c.size && c.start + 1 + i < c.size
  {
  }

  lemma Ready(c: Config, tr: seq<State>)
    requires tr != [] && IsRun(c, tr)
    ensures ValidConfig(c) && |tr[|tr| - 1].disk| == c.size
    ensures Committing(tr[|tr| - 1]) ==> CommitEnabled(c, tr[|tr| - 1])
    ensures Recovering(tr[|tr| - 1]) ==> RecoverEnabled(c, tr[|tr| - 1])
  {
    hide IsRun, Next, Inv, CommitEnabled, RecoverEnabled;
    RunInv(c, tr, |tr| - 1);
    InvSizes(c, tr[|tr| - 1]);
    CommitIsEnabled(c, tr[|tr| - 1]);
  }

  lemma RunWriteLog(c: Config, tr: seq<State>) returns (tr': seq<State>)
    requires tr != [] && IsRun(c, tr)
    requires tr[|tr| - 1].phase.WriteLog? && tr[|tr| - 1].phase.k < |tr[|tr| - 1].lh|
    ensures var s := tr[|tr| - 1]; var k := s.phase.k; var j := c.start + 1 + k;
      && j < |s.disk| && s.lh[k] < |s.disk| && IsRun(c, tr')
      && tr' == tr + [s.(disk := s.disk[j := Bread(s, s.lh[k])], cache := s.cache[j := Bread(s, s.lh[k])],
                         phase := WriteLog(k + 1))]
  {
    hide IsRun, Next;
    Ready(c, tr);
    WriteLogUnfold(c, tr[|tr| - 1]);
    hide DoCommit;
    tr' := Extend(c, tr, Commit);
  }

  lemma RunCommitHead(c: Config, tr: seq<State>) returns (tr': seq<State>)
    requires tr != [] && IsRun(c, tr)
    requires tr[|tr| - 1].phase.WriteLog? && tr[|tr| - 1].phase.k == |tr[|tr| - 1].lh|
    ensures var s := tr[|tr| - 1];
      && c.start < |s.disk| && HeaderFits(s.lh) && IsRun(c, tr')
      && var h := EncodeHead(Bread(s, c.start), s.lh);
         tr' == tr + [s.(disk := s.disk[c.start := h], cache := s.cache[c.start := h],
                         phase := Install(0), durable := |s.events|, img := s.cur)]
  {
    hide IsRun, Next;
    Ready(c, tr);
    tr' := Extend(c, tr, Commit);
  }

  /** One iteration of install_trans, in commit or in recovery. */
  lemma RunInstall(c: Config, tr: seq<State>, recovering: bool, k: nat, b: nat, x: Block)
    returns (tr': seq<State>)
    requires tr != [] && IsRun(c, tr)
    requires tr[|tr| - 1].phase == Stage(recovering, k) && k < |tr[|tr| - 1].lh|
    requires b == tr[|tr| - 1].lh[k]
    requires c.start + 1 + k < |tr[|tr| - 1].disk| && x == Bread(tr[|tr| - 1], c.start + 1 + k)
    ensures var s := tr[|tr| - 1];
      && b < |s.disk| && IsRun(c, tr')
      && tr' == tr + [s.(disk := s.disk[b := x], cache := s.cache[b := x],
                         pins := Unpin(recovering, s.pins, b),
                         phase := Stage(recovering, k + 1))]
  {
    hide IsRun, Next;
    Ready(c, tr);
    if recovering {
      tr' := Extend(c, tr, Recover);
    } else {
      InstallUnfold(c, tr[|tr| - 1]);
      tr' := Extend(c, tr, Commit);
    }
  }

  /** n = 0 and write_head, in commit or in recovery. */
  lemma RunClear(c: Config, tr: seq<State>) returns (tr': seq<State>)
    requires tr != [] && IsRun(c, tr)
    requires tr[|tr| - 1].phase.Install? || tr[|tr| - 1].phase.RecInstall?
    requires tr[|tr| - 1].phase.k == |tr[|tr| - 1].lh|
    ensures var s := tr[|tr| - 1];
      && c.start < |s.disk| && IsRun(c, tr')
      && var h := EncodeHead(Bread(s, c.start), []);
         tr' == tr + [s.(disk := s.disk[c.start := h], cache := s.cache[c.start := h], lh := [],
                         phase := if s.phase.Install? then Finish else Running)]
  {
    hide IsRun, Next;
    Ready(c, tr);
    if tr[|tr| - 1].phase.Install? {
      tr' := Extend(c, tr, Commit);
    } else {
      tr' := Extend(c, tr, Recover);
    }
  }

  lemma RunReadHead(c: Config, tr: seq<State>) returns (tr': seq<State>)
    requires tr != [] && IsRun(c, tr) && tr[|tr| - 1].phase.RecRead?
    ensures var s := tr[|tr| - 1];
      && c.start < |s.disk| && IsRun(c, tr')
      && var lh := DecodeHead(Bread(s, c.start));
         |lh| <= LOGSIZE && tr' == tr + [s.(lh := lh, phase := RecInstall(0))]
  {
    hide IsRun, Next;
    Ready(c, tr);
    tr' := Extend(c, tr, Recover);
    Sizes(c, tr');
  }

  lemma RunFinish(c: Config, tr: seq<State>) returns (tr': seq<State>)
    requires tr != [] && IsRun(c, tr) && tr[|tr| - 1].phase.Finish?
    ensures var s := tr[|tr| - 1];
      && IsRun(c, tr') && s.lh == [] && s.img == s.cur && s.durable == |s.events|
      && tr' == tr + [s.(phase := Running, ncommit := s.ncommit + 1, asleep := {})]
  {
    hide IsRun, Next;
    Ready(c, tr);
    FinishFacts(c, tr);
    tr' := Extend(c, tr, Commit);
  }

  lemma RunIdle(c: Config, tr: seq<State>)
    requires tr != [] && IsRun(c, tr)
    ensures Recovering(tr[|tr| - 1]) ==> tr[|tr| - 1].outstanding == 0
  {
    hide IsRun, Next;
    RunInv(c, tr, |tr| - 1);
  }

  lemma FinishFacts(c: Config, tr: seq<State>)
    requires tr != [] && IsRun(c, tr)
    ensures var s := tr[|tr| - 1];
      s.phase == Finish ==> s.img == s.cur && s.durable == |s.events| && s.lh == []
  {
    hide IsRun, Next;
    RunInv(c, tr, |tr| - 1);
  }

  lemma RecoversToImg(c: Config, tr: seq<State>, i: nat)
    requires IsRun(c, tr) && i < |tr|
    ensures c.start < |tr[i].disk| && SameHome(c, Recovered(c, tr[i].disk), tr[i].img)
  {
    hide IsRun, Next;
    RunInv(c, tr, i);
    InvSizes(c, tr[i]);
    InvSound(c, tr[i]);
    SoundRecovers(c, tr[i].disk, tr[i].img);
  }

  lemma InitKept(c: Config, tr: seq<State>)
    requires tr != [] && IsRun(c, tr)
    ensures tr[|tr| - 1].init == tr[0].disk
  {
    hide IsRun, Next;
    RunInv(c, tr, |tr| - 1);
  }

  /** What end_op does first, for the operation p that is open at the end of the run. */
  lemma LastEnds(c: Config, tr: seq<State>, p: Pid)
    requires tr != [] && IsRun(c, tr) && p in tr[|tr| - 1].ops && p !in tr[|tr| - 1].held.Values
    ensures var s := tr[|tr| - 1];
      && ValidConfig(c) && |s.disk| == c.size && s.outstanding > 0 && s.phase == Running
      && Enabled(c, s, LogProtocol.EndOp(p)) && Do(c, s, LogProtocol.EndOp(p)) == DoEnd(s, p)
      && var t := DoEnd(s, p);
      && t.disk == s.disk && t.cache == s.cache && t.held == s.held && t.lh == s.lh && t.pins == s.pins
      && t.ncommit == s.ncommit && t.outstanding == s.outstanding - 1
      && (if t.outstanding > 0 then t.phase == Running && t.asleep == {}
          else t.phase == (if s.lh == [] then Finish else LogProtocol.WriteLog(0)) && t.asleep == s.asleep)
  {
    hide IsRun, Next, Inv, DoEnd;
    NoOrderPanics(c, tr, |tr| - 1, p);
    Sizes(c, tr);
    RunInv(c, tr, |tr| - 1);
    InvSizes(c, tr[|tr| - 1]);
    EndFields(tr[|tr| - 1], p);
  }

  lemma HeldCached(c: Config, tr: seq<State>, b: nat)
    requires tr != [] && IsRun(c, tr)
    ensures b in tr[|tr| - 1].held ==> b in tr[|tr| - 1].cache
  {
    hide IsRun, Next;
    RunInv(c, tr, |tr| - 1);
  }
}
