/** Readers, writers and closers of one pipe with sleep and wakeup: two locks, the pipe's and
    the process table's, every acquire, release and byte a step of its own, and a kill
    between any two. A process in a call on one end holds a reference to that end's file, so the end is
    not closed meanwhile. */
module PipeProtocol {
  import opened Pipes

  type Pid = nat
  datatype Chan = NRead | NWrite
  datatype Lock = Free | HeldBy(p: Pid)

  /** Where a process is. back is where it goes on after sleeping. */
  datatype Pc =
    | Out
    | WWant(src: seq<Byte>, i: nat) | WLoop(src: seq<Byte>, i: nat, wrote: bool)
    | WFull(src: seq<Byte>, i: nat) | WEnd
    | RWant(n: nat) | RCheck(n: nat) | RCopy(n: nat) | REnd
    | CWant(writable: bool) | CSet(writable: bool)
    | Leave
    | SleepLock(chan: Chan, back: Pc) | SleepRelease(chan: Chan, back: Pc)
    | SleepState(chan: Chan, back: Pc) | Asleep(chan: Chan, back: Pc)

  /** lock is pi->lock, plock is ptable.lock; got is what the readers took, in order. dropped
      is history: a killed writer has left with bytes written and nobody woken since. */
  datatype State = State(
    lock: Lock, plock: Lock, ring: Ring, readopen: bool, writeopen: bool, procs: map<Pid, Pc>,
    killed: set<Pid>, written: seq<Byte>, got: seq<Byte>, dropped: bool)

  predicate HoldsLock(pc: Pc) {
    pc.WLoop? || pc.WFull? || pc.WEnd? || pc.RCheck? || pc.RCopy? || pc.REnd? || pc.CSet?
    || pc.Leave? || pc.SleepLock? || pc.SleepRelease?
  }

  predicate HoldsPlock(pc: Pc) { pc.SleepRelease? || pc.SleepState? }

  predicate Sleeping(pc: Pc) { pc.SleepLock? || pc.SleepRelease? || pc.SleepState? || pc.Asleep? }

  predicate Writer(pc: Pc) {
    pc.WWant? || pc.WLoop? || pc.WFull? || pc.WEnd? || (Sleeping(pc) && pc.chan == NWrite)
  }

  predicate Reader(pc: Pc) {
    pc.RWant? || pc.RCheck? || pc.RCopy? || pc.REnd? || (Sleeping(pc) && pc.chan == NRead)
  }

  /** Still needs one end of the pipe, or is about to close it. */
  predicate UsesEnd(pc: Pc, writable: bool) {
    pc == CWant(writable) || if writable then Writer(pc) else Reader(pc)
  }

  /** wakeup(chan): every process asleep on chan becomes runnable, where it wants the lock again. */
  function Wakeup(procs: map<Pid, Pc>, chan: Chan): map<Pid, Pc> {
    map p | p in procs :: if procs[p].Asleep? && procs[p].chan == chan then procs[p].back else procs[p]
  }

  datatype Step =
    | StartWrite(p: Pid, src: seq<Byte>) | StartRead(p: Pid, n: nat) | StartClose(p: Pid, writable: bool)
    | Acquire(p: Pid) | Go(p: Pid) | Kill(p: Pid)

  /** Does this step need ptable.lock to be free? */
  predicate NeedsPlock(pc: Pc) {
    pc.WFull? || pc.WEnd? || pc.REnd? || pc.CSet? || pc.SleepLock?
  }

  predicate Enabled(s: State, step: Step) {
    step.p in s.procs &&
    var pc := s.procs[step.p];
    match step
    case StartWrite(p, src) => pc.Out? && s.writeopen && forall q :: q in s.procs ==> s.procs[q] != CWant(true)
    case StartRead(p, n) => pc.Out? && s.readopen && forall q :: q in s.procs ==> s.procs[q] != CWant(false)
    case StartClose(p, w) =>
      && pc.Out? && (if w then s.writeopen else s.readopen)
      && forall q :: q in s.procs ==> !UsesEnd(s.procs[q], w)
    case Acquire(p) => s.lock == Free && (pc.WWant? || pc.RWant? || pc.CWant?)
    case Kill(p) => s.plock == Free
    case Go(p) => (HoldsLock(pc) || pc.SleepState?) && (NeedsPlock(pc) ==> s.plock == Free)
  }

  function Set(s: State, p: Pid, pc: Pc): State { s.(procs := s.procs[p := pc]) }

  function Wake(s: State, p: Pid, chan: Chan, pc: Pc): State {
    s.(procs := Wakeup(s.procs, chan)[p := pc], dropped := s.dropped && chan != NRead)
  }

  /** kill: the process is marked, and made runnable if it is asleep. */
  function DoKill(s: State, p: Pid): State
    requires p in s.procs
  {
    var t := s.(killed := s.killed + {p});
    if s.procs[p].Asleep? then Set(t, p, s.procs[p].back) else t
  }

  function DoAcquire(s: State, p: Pid): State
    requires p in s.procs
  {
    var t := s.(lock := HeldBy(p));
    match s.procs[p]
    case WWant(src, i) => Set(t, p, WLoop(src, i, false))
    case RWant(n) => Set(t, p, RCheck(n))
    case CWant(w) =>
      Set(if w then t.(writeopen := false) else t.(readopen := false), p, CSet(w))
    case _ => s
  }

  /** The loop of pipewrite: one test, one byte, or the way out. */
  function GoWrite(s: State, p: Pid, src: seq<Byte>, i: nat, wrote: bool): State
    requires |s.ring.data| == PIPESIZE
  {
    if i >= |src| then Set(s, p, WEnd)
    else if !s.readopen || p in s.killed then Set(s.(dropped := s.dropped || wrote), p, Leave)
    else if Full(s.ring) then Set(s, p, WFull(src, i))
    else Set(s.(ring := Put(s.ring, src[i]), written := s.written + [src[i]]), p, WLoop(src, i + 1, true))
  }

  function GoRead(s: State, p: Pid, n: nat): State
    requires |s.ring.data| == PIPESIZE
  {
    if n == 0 || Empty(s.ring) then Set(s, p, REnd)
    else Set(s.(ring := Take(s.ring), got := s.got + [Next(s.ring)]), p, RCopy(n - 1))
  }

  function DoGo(s: State, p: Pid): State
    requires p in s.procs && |s.ring.data| == PIPESIZE
  {
    match s.procs[p]
    case WLoop(src, i, wrote) => GoWrite(s, p, src, i, wrote)
    case WFull(src, i) => Wake(s, p, NRead, SleepLock(NWrite, WWant(src, i)))
    case WEnd => Wake(s, p, NRead, Leave)
    case RCheck(n) =>
      if Empty(s.ring) && s.writeopen then
        Set(s, p, if p in s.killed then Leave else SleepLock(NRead, RWant(n)))
      else Set(s, p, RCopy(n))
    case RCopy(n) => GoRead(s, p, n)
    case REnd => Wake(s, p, NWrite, Leave)
    case CSet(w) => Wake(s, p, if w then NRead else NWrite, Leave)
    case Leave => Set(s.(lock := Free), p, Out)
    case SleepLock(c, b) => Set(s.(plock := HeldBy(p)), p, SleepRelease(c, b))
    case SleepRelease(c, b) => Set(s.(lock := Free), p, SleepState(c, b))
    case SleepState(c, b) => Set(s.(plock := Free), p, Asleep(c, b))
    case _ => s
  }

  function Do(s: State, step: Step): State
    requires Enabled(s, step) && |s.ring.data| == PIPESIZE
  {
    match step
    case StartWrite(p, src) => Set(s, p, WWant(src, 0))
    case StartRead(p, n) => Set(s, p, RWant(n))
    case StartClose(p, w) => Set(s, p, CWant(w))
    case Acquire(p) => DoAcquire(s, p)
    case Go(p) => DoGo(s, p)
    case Kill(p) => DoKill(s, p)
  }

  ghost predicate Init(s: State) {
    && s.lock == s.plock == Free && s.readopen && s.writeopen && s.written == s.got == []
    && s.killed == {} && !s.dropped
    && |s.ring.data| == PIPESIZE && s.ring.nread == s.ring.nwrite == 0
    && forall p :: p in s.procs ==> s.procs[p] == Out
  }

  ghost predicate IsRun(tr: seq<State>) {
    && tr != [] && Init(tr[0])
    && forall i :: 0 <= i < |tr| - 1 ==> IsStep(tr[i], tr[i + 1])
  }

  ghost predicate IsStep(s: State, t: State) {
    |s.ring.data| == PIPESIZE && exists step :: Enabled(s, step) && t == Do(s, step)
  }

  // ---- the invariant -----------------------------------------------------------------------

  ghost predicate Locks(s: State) {
    && (forall p :: p in s.procs && HoldsLock(s.procs[p]) ==> s.lock == HeldBy(p))
    && (s.lock.HeldBy? ==> s.lock.p in s.procs && HoldsLock(s.procs[s.lock.p]))
    && (forall p :: p in s.procs && HoldsPlock(s.procs[p]) ==> s.plock == HeldBy(p))
    && (s.plock.HeldBy? ==> s.plock.p in s.procs && HoldsPlock(s.procs[s.plock.p]))
  }

  /** The holder of the pipe's lock is bound to wake the sleepers on chan before it lets go. */
  predicate WillWake(s: State, chan: Chan) {
    s.lock.HeldBy? && s.lock.p in s.procs && var pc := s.procs[s.lock.p];
    if chan == NRead then (pc.WLoop? && pc.wrote) || pc.WFull? || pc.WEnd? || pc == CSet(true)
    else pc.RCopy? || pc.REnd? || pc == CSet(false)
  }

  /** The write end is shut, and those who wait for bytes are about to be woken. */
  predicate Closing(s: State) { s.lock.HeldBy? && s.lock.p in s.procs && s.procs[s.lock.p] == CSet(true) }

  predicate MaySleep(s: State, chan: Chan) {
    if chan == NRead then Empty(s.ring) && s.writeopen else Full(s.ring) && s.readopen
  }

  ghost predicate PcOk(s: State, pc: Pc) {
    && (Sleeping(pc) ==>
      && (if pc.chan == NRead then pc.back.RWant? else pc.back.WWant?)
      && (MaySleep(s, pc.chan) || WillWake(s, pc.chan) || (pc.chan == NRead && s.dropped))
      && (pc.chan == NRead ==> s.writeopen || Closing(s)))
    && (pc.WFull? ==> Full(s.ring) && s.readopen)
    && (pc.WLoop? && pc.wrote ==> s.readopen)
    && ((pc.SleepLock? || pc.SleepRelease?) ==> MaySleep(s, pc.chan))
  }

  ghost predicate Inv(s: State) {
    && Locks(s) && (forall p :: p in s.procs ==> PcOk(s, s.procs[p]))
    && (s.dropped ==> s.killed != {})
    && Carries(s.ring, s.written, |s.got|) && s.got == s.written[..|s.got|]
  }

  /** A process that held no lock has taken the pipe's. */
  lemma TakeLocks(s: State, t: State, p: Pid, pc: Pc)
    requires Locks(s) && s.lock == Free && p in s.procs && !HoldsPlock(s.procs[p])
    requires HoldsLock(pc) && !HoldsPlock(pc)
    requires t.procs == s.procs[p := pc] && t.lock == HeldBy(p) && t.plock == s.plock
    ensures Locks(t)
    ensures forall q :: q in s.procs ==> !HoldsLock(s.procs[q])
  {
    hide HoldsLock, HoldsPlock;
  }

  lemma AcquireLocks(s: State, p: Pid)
    requires Locks(s) && Enabled(s, Acquire(p))
    ensures Locks(DoAcquire(s, p))
    ensures forall q :: q in s.procs ==> !HoldsLock(s.procs[q])
  {
    hide Locks;
    TakeLocks(s, DoAcquire(s, p), p, DoAcquire(s, p).procs[p]);
  }

  lemma AcquirePc(s: State, p: Pid, q: Pid)
    requires Enabled(s, Acquire(p)) && q in s.procs && !HoldsLock(s.procs[q]) && PcOk(s, s.procs[q])
    ensures PcOk(DoAcquire(s, p), DoAcquire(s, p).procs[q])
  {
    hide Full, Empty;
  }

  lemma AcquireInv(s: State, p: Pid)
    requires Inv(s) && Enabled(s, Acquire(p))
    ensures Inv(DoAcquire(s, p))
  {
    hide Carries, Full, Empty, Locks, PcOk;
    AcquireLocks(s, p);
    var t := DoAcquire(s, p);
    forall q | q in t.procs ensures PcOk(t, t.procs[q]) { AcquirePc(s, p, q); }
  }

  lemma StartLocks(s: State, p: Pid, pc: Pc)
    requires Locks(s) && p in s.procs && s.procs[p].Out? && (pc.WWant? || pc.RWant? || pc.CWant?)
    ensures Locks(Set(s, p, pc))
    ensures s.lock.HeldBy? ==> s.lock.p != p
  {
  }

  lemma StartInv(s: State, p: Pid, pc: Pc)
    requires Inv(s) && p in s.procs && s.procs[p].Out? && (pc.WWant? || pc.RWant? || pc.CWant?)
    ensures Inv(Set(s, p, pc))
  {
    hide Carries, Full, Empty, Locks;
    StartLocks(s, p, pc);
    var t := Set(s, p, pc);
    forall q | q in t.procs ensures PcOk(t, t.procs[q]) { assert PcOk(s, s.procs[q]); }
  }

  /** The holder of the lock goes on holding it. */
  lemma HolderLocks(s: State, t: State, p: Pid, pc: Pc)
    requires Locks(s) && p in s.procs && HoldsLock(s.procs[p]) && !HoldsPlock(s.procs[p])
    requires HoldsLock(pc) && !HoldsPlock(pc)
    requires t.procs == s.procs[p := pc] && t.lock == s.lock && t.plock == s.plock
    ensures Locks(t) && s.lock == HeldBy(p)
    ensures forall q :: q in s.procs && q != p ==> !HoldsLock(s.procs[q])
  {
  }

  lemma WritePc(s: State, p: Pid, q: Pid)
    requires Enabled(s, Go(p)) && s.procs[p].WLoop? && |s.ring.data| == PIPESIZE && q in s.procs
    requires s.lock == HeldBy(p) && (q != p ==> !HoldsLock(s.procs[q]))
    requires PcOk(s, s.procs[p]) && PcOk(s, s.procs[q])
    ensures PcOk(DoGo(s, p), DoGo(s, p).procs[q])
  {
    hide Carries, Full, Empty, Put;
  }

  lemma WriteInv(s: State, p: Pid)
    requires Inv(s) && Enabled(s, Go(p)) && s.procs[p].WLoop? && |s.ring.data| == PIPESIZE
    ensures Inv(DoGo(s, p))
  {
    assert |s.got| <= |s.written|;
    hide Locks, Carries, Full, Empty, Put, PcOk;
    var pc, t := s.procs[p], DoGo(s, p);
    HolderLocks(s, t, p, t.procs[p]);
    if pc.i < |pc.src| && s.readopen && p !in s.killed && !Full(s.ring) {
      PutCarries(s.ring, s.written, |s.got|, pc.src[pc.i]);
    }
    forall q | q in t.procs ensures PcOk(t, t.procs[q]) { WritePc(s, p, q); }
  }

  lemma ReadInv(s: State, p: Pid)
    requires Inv(s) && Enabled(s, Go(p)) && (s.procs[p].RCheck? || s.procs[p].RCopy?)
    requires |s.ring.data| == PIPESIZE
    ensures Inv(DoGo(s, p))
  {
    hide Locks, Carries, Full, Empty, Take, Pipes.Next;
    var pc, t := s.procs[p], DoGo(s, p);
    HolderLocks(s, t, p, t.procs[p]);
    if pc.RCopy? && pc.n > 0 && !Empty(s.ring) {
      TakeCarries(s.ring, s.written, |s.got|);
      assert s.written[..|s.got| + 1] == s.written[..|s.got|] + [s.written[|s.got|]];
    }
    assert PcOk(s, pc);
    forall q | q in t.procs ensures PcOk(t, t.procs[q]) { assert PcOk(s, s.procs[q]); }
  }

  /** With ptable.lock free, wakeup leaves nobody asleep on its channel and everybody else
      as they were. */
  lemma WakeLocks(s: State, p: Pid, chan: Chan, pc: Pc)
    requires Locks(s) && p in s.procs && s.lock == HeldBy(p) && s.plock == Free
    requires HoldsLock(pc) && !HoldsPlock(pc)
    requires forall q :: q in s.procs ==> PcOk(s, s.procs[q])
    ensures Locks(Wake(s, p, chan, pc))
  {
  }

  lemma WakePcs(s: State, p: Pid, chan: Chan, pc: Pc)
    requires Locks(s) && p in s.procs && s.lock == HeldBy(p) && s.plock == Free
    requires forall q :: q in s.procs ==> PcOk(s, s.procs[q])
    requires PcOk(Wake(s, p, chan, pc), pc) && HoldsLock(pc)
    requires !WillWake(s, if chan == NRead then NWrite else NRead)
    ensures var t := Wake(s, p, chan, pc); forall q :: q in t.procs ==> PcOk(t, t.procs[q])
  {
  }

  lemma WakeInv(s: State, p: Pid)
    requires Inv(s) && Enabled(s, Go(p)) && |s.ring.data| == PIPESIZE
    requires s.procs[p].WFull? || s.procs[p].WEnd? || s.procs[p].REnd? || s.procs[p].CSet?
    ensures Inv(DoGo(s, p))
  {
    hide Carries, Full, Empty;
    assert s.lock == HeldBy(p) && s.plock == Free && PcOk(s, s.procs[p]);
    var pc := s.procs[p];
    var chan := if pc.REnd? || pc == CSet(false) then NWrite else NRead;
    var next := if pc.WFull? then SleepLock(NWrite, WWant(pc.src, pc.i)) else Leave;
    assert DoGo(s, p) == Wake(s, p, chan, next);
    hide Locks, DoGo;
    WakeLocks(s, p, chan, next);
    WakePcs(s, p, chan, next);
  }

  lemma SleepLocks(s: State, p: Pid)
    requires Locks(s) && Enabled(s, Go(p)) && |s.ring.data| == PIPESIZE
    requires s.procs[p].Leave? || s.procs[p].SleepLock? || s.procs[p].SleepRelease? || s.procs[p].SleepState?
    ensures Locks(DoGo(s, p))
  {
  }

  lemma SleepPc(s: State, p: Pid, q: Pid)
    requires Enabled(s, Go(p)) && |s.ring.data| == PIPESIZE && q in s.procs
    requires s.procs[p].Leave? || s.procs[p].SleepLock? || s.procs[p].SleepRelease? || s.procs[p].SleepState?
    requires HoldsLock(s.procs[p]) <==> s.lock == HeldBy(p)
    requires PcOk(s, s.procs[p]) && PcOk(s, s.procs[q])
    ensures PcOk(DoGo(s, p), DoGo(s, p).procs[q])
  {
    hide Full, Empty;
  }

  lemma LockOf(s: State, p: Pid)
    requires Locks(s) && p in s.procs
    ensures HoldsLock(s.procs[p]) <==> s.lock == HeldBy(p)
  {
    hide HoldsLock, HoldsPlock;
  }

  lemma SleepInv(s: State, p: Pid)
    requires Inv(s) && Enabled(s, Go(p)) && |s.ring.data| == PIPESIZE
    requires s.procs[p].Leave? || s.procs[p].SleepLock? || s.procs[p].SleepRelease? || s.procs[p].SleepState?
    ensures Inv(DoGo(s, p))
  {
    hide Carries, Full, Empty, Locks, PcOk;
    SleepLocks(s, p);
    LockOf(s, p);
    var t := DoGo(s, p);
    forall q | q in t.procs ensures PcOk(t, t.procs[q]) { SleepPc(s, p, q); }
  }

  lemma KillLocks(s: State, p: Pid)
    requires Locks(s) && p in s.procs && s.plock == Free
    requires s.procs[p].Asleep? ==> s.procs[p].back.RWant? || s.procs[p].back.WWant?
    ensures Locks(DoKill(s, p))
  {
  }

  lemma KillInv(s: State, p: Pid)
    requires Inv(s) && Enabled(s, Kill(p))
    ensures Inv(DoKill(s, p))
  {
    hide Carries, Full, Empty, Locks;
    assert PcOk(s, s.procs[p]);
    KillLocks(s, p);
    KillWaker(s, p);
    var t := DoKill(s, p);
    forall q | q in t.procs ensures PcOk(t, t.procs[q]) { assert PcOk(s, s.procs[q]); }
  }

  lemma KillWaker(s: State, p: Pid)
    requires Locks(s) && p in s.procs
    ensures s.procs[p].Asleep? ==> s.lock != HeldBy(p)
  {
  }

  lemma StepInv(s: State, t: State)
    requires Inv(s) && IsStep(s, t)
    ensures Inv(t)
  {
    hide Inv;
    var step :| Enabled(s, step) && t == Do(s, step);
    match step
    case Acquire(p) => AcquireInv(s, p);
    case Kill(p) => KillInv(s, p);
    case Go(p) =>
      var pc := s.procs[p];
      if pc.WLoop? { WriteInv(s, p); }
      else if pc.RCheck? || pc.RCopy? { ReadInv(s, p); }
      else if pc.WFull? || pc.WEnd? || pc.REnd? || pc.CSet? { WakeInv(s, p); }
      else { SleepInv(s, p); }
    case StartWrite(p, src) => StartInv(s, p, WWant(src, 0));
    case StartRead(p, n) => StartInv(s, p, RWant(n));
    case StartClose(p, w) => StartInv(s, p, CWant(w));
  }

  lemma InitInv(s: State)
    requires Init(s)
    ensures Inv(s)
  {
  }

  lemma {:induction false} RunInv(tr: seq<State>, i: nat)
    requires IsRun(tr) && i < |tr|
    ensures Inv(tr[i])
  {
    hide Inv, IsStep;
    if i == 0 { InitInv(tr[0]); } else {
      RunInv(tr, i - 1);
      StepInv(tr[i - 1], tr[i]);
    }
  }

  /** When both locks are free, a writer sleeps only on a full pipe with its read end open. A
      reader sleeps where it should - on an empty pipe with its write end open - exactly when
      the pipe is empty; where it should not, a killed writer has left bytes behind and nobody
      has been woken since. */
  lemma NoLostWakeup(tr: seq<State>, i: nat, p: Pid)
    requires IsRun(tr) && i < |tr| && tr[i].lock == Free && tr[i].plock == Free
    requires p in tr[i].procs && Sleeping(tr[i].procs[p])
    ensures tr[i].procs[p].Asleep?
    ensures MaySleep(tr[i], tr[i].procs[p].chan) <==> tr[i].procs[p].chan == NWrite || Empty(tr[i].ring)
    ensures !MaySleep(tr[i], tr[i].procs[p].chan)
       <==> !Empty(tr[i].ring) && tr[i].procs[p].chan == NRead && tr[i].dropped
    ensures tr[i].killed == {} ==> MaySleep(tr[i], tr[i].procs[p].chan)
  {
    hide IsRun, Empty, Full;
    RunInv(tr, i);
    assert PcOk(tr[i], tr[i].procs[p]);
  }

  /** Readers and writers are never both asleep. */
  lemma NeverBothAsleep(tr: seq<State>, i: nat, p: Pid, q: Pid)
    requires IsRun(tr) && i < |tr| && tr[i].lock == Free && tr[i].plock == Free
    requires tr[i].killed == {}
    requires p in tr[i].procs && tr[i].procs[p].Asleep? && q in tr[i].procs && tr[i].procs[q].Asleep?
    ensures tr[i].procs[p].chan == tr[i].procs[q].chan
  {
    hide IsRun, Inv;
    NoLostWakeup(tr, i, p);
    NoLostWakeup(tr, i, q);
    RunInv(tr, i);
    RingOk(tr[i]);
  }

  lemma RingOk(s: State)
    requires Inv(s)
    ensures !(Empty(s.ring) && Full(s.ring))
  {
    InFlight(s.ring, s.written, |s.got|);
  }

  /** What has been read is a beginning of what has been written, and at most PIPESIZE bytes
      are on the way, however often the counters have wrapped. */
  lemma FirstInFirstOut(tr: seq<State>, i: nat)
    requires IsRun(tr) && i < |tr|
    ensures tr[i].got <= tr[i].written && |tr[i].written| <= |tr[i].got| + PIPESIZE
    ensures Empty(tr[i].ring) <==> tr[i].got == tr[i].written
  {
    hide IsRun;
    RunInv(tr, i);
    InFlight(tr[i].ring, tr[i].written, |tr[i].got|);
  }

  // ---- a wakeup that is lost -----------------------------------------------------------------

  lemma Then(tr: seq<State>, step: Step) returns (tr': seq<State>)
    requires IsRun(tr) && Enabled(tr[|tr| - 1], step)
    ensures |tr[|tr| - 1].ring.data| == PIPESIZE
    ensures IsRun(tr') && |tr'| > 0 && tr'[|tr'| - 1] == Do(tr[|tr| - 1], step)
  {
    hide Inv, Enabled, Do;
    RunInv(tr, |tr| - 1);
    InvSize(tr[|tr| - 1]);
    tr' := tr + [Do(tr[|tr| - 1], step)];
    forall i | 0 <= i < |tr'| - 1 ensures IsStep(tr'[i], tr'[i + 1]) {
      if i < |tr| - 1 { assert IsStep(tr[i], tr[i + 1]); }
    }
  }

  lemma InvSize(s: State)
    requires Inv(s)
    ensures |s.ring.data| == PIPESIZE
  {
  }

  /** pipewrite returns -1 without a wakeup when it finds itself killed: reader 1 goes to sleep
      on the empty pipe, writer 2 puts in one of two bytes and is killed, and the reader sleeps
      on though there is a byte to read and nobody holds a lock. */
  lemma KilledWriterLosesWakeup(ring: Ring) returns (tr: seq<State>)
    requires |ring.data| == PIPESIZE && ring.nread == ring.nwrite == 0
    ensures IsRun(tr) && |tr| > 0
    ensures var s := tr[|tr| - 1];
      && s.lock == Free && s.plock == Free && s.procs == map[1 := Asleep(NRead, RWant(1)), 2 := Out]
      && s.written == [7] && s.got == [] && s.dropped
  {
    hide IsRun;
    tr := Sleeper(ring);
    tr := Then(tr, StartWrite(2, [7, 8]));
    tr := Then(tr, Acquire(2));
    tr := Then(tr, Go(2));
    tr := Then(tr, Kill(2));
    tr := Then(tr, Go(2));
    tr := Then(tr, Go(2));
    var s := tr[|tr| - 1];
    assert s.procs == map[1 := Asleep(NRead, RWant(1)), 2 := Out];
  }

  lemma Sleeper(ring: Ring) returns (tr: seq<State>)
    requires |ring.data| == PIPESIZE && ring.nread == ring.nwrite == 0
    ensures IsRun(tr) && |tr| > 0
    ensures tr[|tr| - 1] == State(Free, Free, ring, true, true,
      map[1 := Asleep(NRead, RWant(1)), 2 := Out], {}, [], [], false)
  {
    tr := [State(Free, Free, ring, true, true, map[1 := Out, 2 := Out], {}, [], [], false)];
    assert IsRun(tr);
    hide IsRun;
    tr := Then(tr, StartRead(1, 1));
    tr := Then(tr, Acquire(1));
    assert tr[|tr| - 1] == State(HeldBy(1), Free, ring, true, true, map[1 := RCheck(1), 2 := Out], {}, [], [], false);
    tr := Then(tr, Go(1));
    var asleep := SleepLock(NRead, RWant(1));
    assert tr[|tr| - 1] == State(HeldBy(1), Free, ring, true, true, map[1 := asleep, 2 := Out], {}, [], [], false);
    tr := FallAsleep(tr, ring);
  }

  lemma FallAsleep(tr: seq<State>, ring: Ring) returns (tr': seq<State>)
    requires IsRun(tr) && |tr| > 0
    requires tr[|tr| - 1] == State(HeldBy(1), Free, ring, true, true,
      map[1 := SleepLock(NRead, RWant(1)), 2 := Out], {}, [], [], false)
    ensures IsRun(tr') && |tr'| > 0
    ensures tr'[|tr'| - 1] == State(Free, Free, ring, true, true,
      map[1 := Asleep(NRead, RWant(1)), 2 := Out], {}, [], [], false)
  {
    hide IsRun;
    tr' := Then(tr, Go(1));
    tr' := Then(tr', Go(1));
    tr' := Then(tr', Go(1));
    assert tr'[|tr'| - 1].procs == map[1 := Asleep(NRead, RWant(1)), 2 := Out];
  }
}
