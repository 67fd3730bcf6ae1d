/** Theorems about whole runs of the log: crash atomicity, durability, sync, quiescence. */
module LogRuns {
  import opened Blocks
  import opened LogProtocol
  import opened LogInvariant

  /** The history variables say what they claim, and a commit never cuts an operation in two. */
  ghost predicate History(s: State) {
    && s.durable <= |s.events|
    && s.cur == Replay(s.init, s.events) && s.img == Replay(s.init, s.events[..s.durable])
    && OpenOps(s.events) == s.ops.Keys && OpenOps(s.events[..s.durable]) == {}
  }

  lemma Snoc(d: Disk, es: seq<Event>, e: Event, n: nat)
    requires n <= |es|
    ensures Replay(d, es + [e]) == ApplyEvent(Replay(d, es), e)
    ensures OpenOps(es + [e]) ==
      match e case Begin(p) => OpenOps(es) + {p} case End(p) => OpenOps(es) - {p} case _ => OpenOps(es)
    ensures (es + [e])[..n] == es[..n]
  {
  }

  lemma AllDurable(s: State)
    requires History(s) && s.durable == |s.events|
    ensures s.events[..s.durable] == s.events
  {
  }

  lemma AppendHistory(s: State, t: State, e: Event)
    requires History(s) && t.events == s.events + [e] && t.init == s.init
    requires t.cur == ApplyEvent(s.cur, e)
    requires t.ops.Keys ==
      match e case Begin(p) => s.ops.Keys + {p} case End(p) => s.ops.Keys - {p} case _ => s.ops.Keys
    requires (t.durable == s.durable && t.img == s.img)
      || (t.durable == |t.events| && t.img == t.cur && t.ops == map[])
    ensures History(t)
  {
    Snoc(s.init, s.events, e, s.durable);
    assert t.events[..|t.events|] == t.events;
  }

  lemma HistoryEnd(c: Config, s: State, p: Pid)
    requires Inv(c, s) && History(s) && Enabled(c, s, EndOp(p))
    ensures History(DoEnd(s, p))
  {
    hide Inv, History;
    InvSizes(c, s);
    var t := DoEnd(s, p);
    assert t.ops.Keys == s.ops.Keys - {p};
    assert |s.ops| == |s.ops.Keys| && |t.ops| == |t.ops.Keys|;
    AppendHistory(s, t, End(p));
  }

  ghost predicate Same(s: State, t: State) {
    && t.init == s.init && t.events == s.events && t.cur == s.cur && t.ops == s.ops
    && t.syncers == s.syncers
  }

  lemma WriteLogHistory(c: Config, s: State, k: nat)
    requires CommitEnabled(c, s) && s.phase == WriteLog(k)
    ensures var t := DoWriteLog(c, s, k);
      && Same(s, t) && t.lh == s.lh && Committing(t)
      && (if k == |s.lh| then t.durable == |s.events| && t.img == s.cur
          else t.durable == s.durable && t.img == s.img)
  {
  }

  lemma InstallHistory(c: Config, s: State, k: nat)
    requires CommitEnabled(c, s) && s.phase == Install(k)
    ensures var t := DoInstall(c, s, k);
      && Same(s, t) && t.durable == s.durable && t.img == s.img
      && (t.lh == s.lh || t.lh == []) && Committing(t)
  {
  }

  lemma CommitHistory(c: Config, s: State)
    requires CommitEnabled(c, s)
    ensures var t := DoCommit(c, s);
      && Same(s, t) && (t.lh == s.lh || t.lh == []) && !Recovering(t) && !Recovering(s)
      && (if s.phase.WriteLog? && s.phase.k == |s.lh| then t.durable == |s.events| && t.img == s.cur
          else t.durable == s.durable && t.img == s.img)
  {
    hide DoWriteLog, DoInstall;
    match s.phase
    case WriteLog(k) => WriteLogHistory(c, s, k);
    case Install(k) => InstallHistory(c, s, k);
    case _ =>
  }

  lemma RecoverHistory(c: Config, s: State)
    requires RecoverEnabled(c, s)
    ensures var t := DoRecover(c, s);
      Same(s, t) && t.durable == s.durable && t.img == s.img && Recovering(s) && (Recovering(t) || t.lh == [])
  {
  }

  /** Steps on buffers and the tests of sync touch no history. */
  lemma OtherHistory(c: Config, s: State, step: Step)
    requires Enabled(c, s, step) && ValidConfig(c) && |s.disk| == c.size
    requires !step.Commit? && !step.Recover? && !step.LogWrite? && !step.BeginOp? && !step.EndOp?
    requires !step.Crash?
    ensures var t := Do(c, s, step);
      && t.init == s.init && t.events == s.events && t.cur == s.cur && t.ops == s.ops
      && t.durable == s.durable && t.img == s.img
      && forall p :: p in s.syncers && p in t.syncers ==> t.syncers[p] == s.syncers[p]
  {
  }

  lemma SameHistory(s: State, t: State)
    requires History(s) && t.init == s.init && t.events == s.events && t.cur == s.cur && t.ops == s.ops
    requires (t.durable == s.durable && t.img == s.img)
      || (t.durable == |t.events| && t.img == t.cur && t.ops == map[])
    ensures History(t)
  {
    assert t.events[..|t.events|] == t.events;
  }

  lemma HistoryStep(c: Config, s: State, step: Step)
    requires Inv(c, s) && History(s) && Enabled(c, s, step)
    requires ValidConfig(c) && |s.disk| == |s.cur| == c.size
    ensures History(Do(c, s, step))
  {
    hide Inv, History, DoCommit, DoRecover, CommitEnabled, RecoverEnabled;
    assert s.durable <= |s.events| by { InvSizes(c, s); }
    match step
    case LogWrite(p, b) =>
      var t := DoLogWrite(s, p, b);
      assert t.ops.Keys == s.ops.Keys;
      AppendHistory(s, t, Write(p, b, s.cache[b]));
    case BeginOp(p) =>
      if !BeginBlocked(s) { AppendHistory(s, DoBegin(s, p), Begin(p)); }
      else { SameHistory(s, DoBegin(s, p)); }
    case EndOp(p) => HistoryEnd(c, s, p);
    case Crash => CrashHistory(s);
    case Commit =>
      CommitNoOps(c, s);
      CommitHistory(c, s);
      SameHistory(s, DoCommit(c, s));
    case Recover =>
      RecoverHistory(c, s);
      SameHistory(s, DoRecover(c, s));
    case _ =>
      OtherHistory(c, s, step);
      SameHistory(s, Do(c, s, step));
  }

  lemma CrashHistory(s: State)
    requires History(s) && s.durable <= |s.events|
    ensures History(DoCrash(s))
  {
    var t := DoCrash(s);
    assert t.events[..t.durable] == t.events;
  }

  lemma CommitNoOps(c: Config, s: State)
    requires Inv(c, s) && CommitEnabled(c, s)
    ensures s.ops == map[]
  {
  }

  lemma NextInv(c: Config, s: State, s': State)
    requires Inv(c, s) && History(s) && Next(c, s, s')
    ensures Inv(c, s') && History(s') && s'.init == s.init
  {
    var step :| Enabled(c, s, step) && s' == Do(c, s, step);
    InvSizes(c, s);
    StepInv(c, s, step);
    HistoryStep(c, s, step);
    NextKeeps(c, s, step);
  }

  /** No step takes back what is durable; only a crash shortens the history. */
  lemma NextKeeps(c: Config, s: State, step: Step)
    requires Enabled(c, s, step) && ValidConfig(c) && |s.disk| == c.size && s.durable <= |s.events|
    ensures var t := Do(c, s, step);
      && t.init == s.init && s.durable <= t.durable <= |t.events|
      && (if step.Crash? then t == DoCrash(s) else s.events <= t.events)
      && forall p :: p in s.syncers && p in t.syncers ==> t.syncers[p] == s.syncers[p]
  {
    hide DoCommit, DoRecover, CommitEnabled, RecoverEnabled;
    match step
    case LogWrite(p, b) =>
    case BeginOp(p) =>
    case EndOp(p) =>
    case Crash =>
    case Commit => CommitHistory(c, s);
    case Recover => RecoverHistory(c, s);
    case _ => OtherHistory(c, s, step);
  }

  lemma {:induction false} RunInv(c: Config, tr: seq<State>, i: nat)
    requires IsRun(c, tr) && i < |tr|
    ensures Inv(c, tr[i]) && History(tr[i]) && tr[i].init == tr[0].disk
  {
    hide Inv, Next, History;
    if i == 0 {
      BootInv(c, tr[0]);
      BootHistory(c, tr[0]);
    } else {
      RunInv(c, tr, i - 1);
      NextInv(c, tr[i - 1], tr[i]);
    }
  }

  lemma BootHistory(c: Config, s: State)
    requires Boot(c, s)
    ensures History(s)
  {
  }

  /** Any enabled step extends a run. */
  lemma Extend(c: Config, tr: seq<State>, step: Step) returns (tr': seq<State>)
    requires IsRun(c, tr) && Enabled(c, tr[|tr| - 1], step)
    ensures ValidConfig(c) && |tr[|tr| - 1].disk| == |tr[|tr| - 1].cur| == c.size
    ensures IsRun(c, tr') && tr' == tr + [Do(c, tr[|tr| - 1], step)]
  {
    hide Inv, Enabled, Do;
    var s := tr[|tr| - 1];
    RunInv(c, tr, |tr| - 1);
    InvSizes(c, s);
    var t := Do(c, s, step);
    tr' := tr + [t];
    assert Next(c, s, t);
    forall i | 0 <= i < |tr'| - 1 ensures Next(c, tr'[i], tr'[i + 1]) {
      if i < |tr| - 1 { assert Next(c, tr[i], tr[i + 1]); }
    }
  }

  /** Crash atomicity. Stop any run anywhere, between any two disk writes of commit or
      recovery: the disk recovers to the effect of a prefix of the history in which every
      operation that began has also ended. */
  lemma CrashAtomicity(c: Config, tr: seq<State>, i: nat)
    requires IsRun(c, tr) && i < |tr|
    ensures tr[i].durable <= |tr[i].events| && c.start < |tr[i].disk|
    ensures SameHome(c, Recovered(c, tr[i].disk), Replay(tr[0].disk, tr[i].events[..tr[i].durable]))
    ensures OpenOps(tr[i].events[..tr[i].durable]) == {}
  {
    hide Inv, Next, SameHome;
    RunInv(c, tr, i);
    InvSizes(c, tr[i]);
    InvSound(c, tr[i]);
    SoundRecovers(c, tr[i].disk, tr[i].img);
  }

  lemma KeepStep(c: Config, s: State, s': State)
    requires Inv(c, s) && Next(c, s, s')
    ensures s.durable <= s'.durable <= |s'.events| && s.durable <= |s.events|
    ensures s'.events[..s.durable] == s.events[..s.durable]
    ensures s' == DoCrash(s) || s.events <= s'.events
  {
    hide Inv;
    var step :| Enabled(c, s, step) && s' == Do(c, s, step);
    InvSizes(c, s);
    NextKeeps(c, s, step);
  }

  /** What was durable once stays durable, through any further steps, crashes and recoveries. */
  lemma {:induction false} DurableForever(c: Config, tr: seq<State>, i: nat, j: nat)
    requires IsRun(c, tr) && i <= j < |tr|
    ensures tr[i].durable <= tr[j].durable <= |tr[j].events|
    ensures tr[i].durable <= |tr[i].events|
    ensures tr[j].events[..tr[i].durable] == tr[i].events[..tr[i].durable]
    decreases j
  {
    hide Inv, Next, History;
    RunInv(c, tr, i);
    InvSizes(c, tr[i]);
    if i < j {
      DurableForever(c, tr, i, j - 1);
      RunInv(c, tr, j - 1);
      KeepStep(c, tr[j - 1], tr[j]);
      PrefixTwice(tr[j - 1].events, tr[j].events, tr[i].durable, tr[j - 1].durable);
    }
  }

  lemma PrefixTwice(a: seq<Event>, b: seq<Event>, d: nat, e: nat)
    requires d <= e <= |a| && e <= |b| && a[..e] == b[..e]
    ensures a[..d] == b[..d]
  {
  }

  lemma RecoverQuietStep(c: Config, s: State, s': State)
    requires Inv(c, s) && Recovering(s) && Next(c, s, s')
    ensures s'.events == s.events && s'.outstanding == 0
  {
    var step :| Enabled(c, s, step) && s' == Do(c, s, step);
    assert s.events[..|s.events|] == s.events;
  }

  lemma {:induction false} RecoveryQuiet(c: Config, tr: seq<State>, i: nat, j: nat)
    requires IsRun(c, tr) && i < j < |tr|
    requires forall k :: i <= k < j ==> Recovering(tr[k])
    ensures tr[j].events == tr[i].events && tr[j].outstanding == 0
    decreases j
  {
    hide Inv, Next, History;
    if i + 1 < j { RecoveryQuiet(c, tr, i, j - 1); }
    RunInv(c, tr, j - 1);
    assert Recovering(tr[j - 1]);
    RecoverQuietStep(c, tr[j - 1], tr[j]);
  }

  /** Crash at i, then any number of crashes inside recovery and one that completes: the
      home blocks on disk are exactly the image that was committed when the crash came. */
  lemma CrashThenRecover(c: Config, tr: seq<State>, i: nat, j: nat)
    requires IsRun(c, tr) && i + 1 < j < |tr|
    requires tr[i].durable <= |tr[i].events| && tr[i + 1] == DoCrash(tr[i])
    requires forall k :: i + 1 <= k < j ==> Recovering(tr[k])
    requires tr[j].phase.Running?
    ensures SameHome(c, tr[j].disk, Replay(tr[0].disk, tr[i].events[..tr[i].durable]))
  {
    hide Inv, Next, SameHome;
    RecoveryQuiet(c, tr, i + 1, j);
    QuiescentLog(c, tr, j);
  }

  lemma RestingLog(c: Config, s: State)
    requires Inv(c, s) && s.outstanding == 0 && s.phase.Running?
    ensures s.lh == [] && s.pins == multiset{} && s.asleep == {}
    ensures s.durable == |s.events| && SameHome(c, s.disk, s.img)
  {
  }

  /** With no operation and no commit under way the log is empty, nothing is pinned,
      nobody sleeps on the log, and the disk holds every operation. */
  lemma QuiescentLog(c: Config, tr: seq<State>, i: nat)
    requires IsRun(c, tr) && i < |tr|
    requires tr[i].outstanding == 0 && tr[i].phase.Running?
    ensures tr[i].lh == [] && tr[i].pins == multiset{} && tr[i].asleep == {}
    ensures SameHome(c, tr[i].disk, Replay(tr[0].disk, tr[i].events))
  {
    hide Inv, Next, SameHome;
    RunInv(c, tr, i);
    RestingLog(c, tr[i]);
    AllDurable(tr[i]);
  }

  lemma SyncDue(c: Config, s: State, p: Pid)
    requires Inv(c, s) && p in s.syncers && s.syncers[p].n <= s.ncommit
    ensures s.syncers[p].need <= s.durable
  {
  }

  lemma SyncIdle(c: Config, s: State)
    requires Inv(c, s) && !Recovering(s) && !Committing(s) && s.outstanding == 0
    ensures s.durable == |s.events|
  {
  }

  /** sys_sync(p) called in state i and about to return in state j: all that had happened
      before the call - in particular every end_op - is durable, and so survives any crash. */
  lemma SyncSurvives(c: Config, tr: seq<State>, i: nat, j: nat, p: Pid)
    requires IsRun(c, tr) && i < j < |tr|
    requires Enabled(c, tr[i], Sync(p)) && tr[i + 1] == DoSync(tr[i], p)
    requires p in tr[i + 1].syncers ==>
      && (forall k :: i + 1 <= k <= j ==> p in tr[k].syncers)
      && tr[j].syncers[p].n <= tr[j].ncommit
    ensures |tr[i].events| <= tr[j].durable <= |tr[j].events|
    ensures tr[j].events[..|tr[i].events|] == tr[i].events
  {
    hide Inv, Next, History;
    RunInv(c, tr, i);
    RunInv(c, tr, j);
    InvSizes(c, tr[j]);
    if p in tr[i + 1].syncers {
      SyncKept(c, tr, i + 1, j, p);
      SyncDue(c, tr[j], p);
    } else {
      SyncIdle(c, tr[i]);
      DurableForever(c, tr, i, j);
      assert tr[i].events[..tr[i].durable] == tr[i].events;
    }
  }

  lemma SyncKeptStep(c: Config, s: State, s': State, p: Pid)
    requires Next(c, s, s') && p in s.syncers && p in s'.syncers && s.durable <= |s.events|
    ensures s'.syncers[p] == s.syncers[p] && s.events <= s'.events
  {
    var step :| Enabled(c, s, step) && s' == Do(c, s, step);
    NextKeeps(c, s, step);
  }

  lemma {:induction false} SyncKept(c: Config, tr: seq<State>, i: nat, j: nat, p: Pid)
    requires IsRun(c, tr) && i <= j < |tr|
    requires forall k :: i <= k <= j ==> p in tr[k].syncers
    ensures p in tr[i].syncers && p in tr[j].syncers && tr[j].syncers[p] == tr[i].syncers[p]
    ensures tr[i].events <= tr[j].events
    decreases j
  {
    hide Next, Inv;
    assert p in tr[i].syncers && p in tr[j].syncers;
    if i < j {
      SyncKept(c, tr, i, j - 1, p);
      RunInv(c, tr, j - 1);
      SyncKeptStep(c, tr[j - 1], tr[j], p);
    }
  }

  lemma ReadValue(c: Config, s: State, b: nat)
    requires Inv(c, s) && !Recovering(s) && Home(c, b) && |s.disk| == |s.cur| == c.size
    requires b in s.held ==> s.held[b] !in s.ops
    ensures Bread(s, b) == s.cur[b]
    ensures s.phase.Running? ==> s.pins == multiset(s.lh) && NoDup(s.lh)
  {
  }

  /** Unless an operation is at work on it, a read of any block returns its latest logged
      contents, whatever was evicted; and the pinned buffers are the logged blocks, each once. */
  lemma ReadsLatest(c: Config, tr: seq<State>, i: nat, b: nat)
    requires IsRun(c, tr) && i < |tr| && !Recovering(tr[i])
    requires Home(c, b) && (b in tr[i].held ==> tr[i].held[b] !in tr[i].ops)
    ensures |tr[i].disk| == c.size && Bread(tr[i], b) == Replay(tr[0].disk, tr[i].events)[b]
    ensures tr[i].phase.Running? ==> tr[i].pins == multiset(tr[i].lh) && NoDup(tr[i].lh)
  {
    hide Inv, Next;
    RunInv(c, tr, i);
    InvSizes(c, tr[i]);
    ReadValue(c, tr[i], b);
  }

  /** end_op's panic and log_write's "outside of trans" panic are unreachable. */
  lemma NoOrderPanics(c: Config, tr: seq<State>, i: nat, p: Pid)
    requires IsRun(c, tr) && i < |tr| && p in tr[i].ops
    ensures tr[i].outstanding >= 1 && !Committing(tr[i]) && tr[i].phase.Running?
  {
    hide Next, DiskInv, SleepersOk, MemoryInv, PinInv;
    RunInv(c, tr, i);
    assert tr[i].ops.Keys != {};
  }
}
