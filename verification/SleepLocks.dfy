/** acquiresleep and releasesleep by any number of processes: the lock's own spinlock and the
    process table's, each acquire and release of them a step, and a kill between any two. */
module SleepLocks {
  type Pid = p: nat | 0 < p witness 1
  datatype Lock = Free | HeldBy(p: Pid)

  /** Where a process is. Want is before acquire(&lk->lk), also after a sleep; Test at the
      while; the Sleep steps are those of sleep(lk, &lk->lk); Granted is before the release;
      Inside is after acquiresleep; Done is the release of releasesleep. */
  datatype Pc =
    | Out | Want | Test | SleepLock | SleepRelease | SleepState | Asleep
    | Granted | Inside | Leaving | Waking | Done

  /** spin is lk->lk, plock ptable.lock; pid 0 stands for no holder. */
  datatype State = State(spin: Lock, plock: Lock, locked: bool, pid: nat, procs: map<Pid, Pc>)

  predicate HoldsSpin(pc: Pc) {
    pc.Test? || pc.SleepLock? || pc.SleepRelease? || pc.Granted? || pc.Waking? || pc.Done?
  }

  predicate HoldsPlock(pc: Pc) { pc.SleepRelease? || pc.SleepState? }

  predicate Sleeping(pc: Pc) { pc.SleepLock? || pc.SleepRelease? || pc.SleepState? || pc.Asleep? }

  /** From the assignment of locked to the one that clears it. */
  predicate Has(pc: Pc) { pc.Granted? || pc.Inside? || pc.Leaving? }

  datatype Step = Call(p: Pid) | Return(p: Pid) | Acquire(p: Pid) | Go(p: Pid) | Kill(p: Pid)

  predicate NeedsPlock(pc: Pc) { pc.SleepLock? || pc.Waking? }

  /** releasesleep is called by the process that has the lock. */
  predicate Enabled(s: State, step: Step) {
    step.p in s.procs &&
    var pc := s.procs[step.p];
    match step
    case Call(p) => pc.Out?
    case Return(p) => pc.Inside?
    case Acquire(p) => s.spin == Free && (pc.Want? || pc.Leaving?)
    case Kill(p) => s.plock == Free
    case Go(p) => (HoldsSpin(pc) || pc.SleepState?) && (NeedsPlock(pc) ==> s.plock == Free)
  }

  function Set(s: State, p: Pid, pc: Pc): State { s.(procs := s.procs[p := pc]) }

  function WakeAll(procs: map<Pid, Pc>): map<Pid, Pc> {
    map p | p in procs :: if procs[p].Asleep? then Want else procs[p]
  }

  function DoGo(s: State, p: Pid): State
    requires p in s.procs
  {
    match s.procs[p]
    case Test => if s.locked then Set(s, p, SleepLock) else Set(s.(locked := true, pid := p), p, Granted)
    case SleepLock => Set(s.(plock := HeldBy(p)), p, SleepRelease)
    case SleepRelease => Set(s.(spin := Free), p, SleepState)
    case SleepState => Set(s.(plock := Free), p, Asleep)
    case Granted => Set(s.(spin := Free), p, Inside)
    case Waking => s.(procs := WakeAll(s.procs)[p := Done])
    case Done => Set(s.(spin := Free), p, Out)
    case _ => s
  }

  function Do(s: State, step: Step): State
    requires Enabled(s, step)
  {
    match step
    case Call(p) => Set(s, p, Want)
    case Return(p) => Set(s, p, Leaving)
    case Acquire(p) =>
      if s.procs[p].Want? then Set(s.(spin := HeldBy(p)), p, Test)
      else Set(s.(spin := HeldBy(p), locked := false, pid := 0), p, Waking)
    case Kill(p) => if s.procs[p].Asleep? then Set(s, p, Want) else s
    case Go(p) => DoGo(s, p)
  }

  ghost predicate Init(s: State) {
    && s.spin == s.plock == Free && !s.locked && s.pid == 0
    && forall p :: p in s.procs ==> s.procs[p] == Out
  }

  ghost predicate IsStep(s: State, t: State) { exists step :: Enabled(s, step) && t == Do(s, step) }

  ghost predicate IsRun(tr: seq<State>) {
    && tr != [] && Init(tr[0])
    && forall i :: 0 <= i < |tr| - 1 ==> IsStep(tr[i], tr[i + 1])
  }

  // ---- the invariant -----------------------------------------------------------------------

  ghost predicate Spins(s: State) {
    && (forall p :: p in s.procs && HoldsSpin(s.procs[p]) ==> s.spin == HeldBy(p))
    && (s.spin.HeldBy? ==> s.spin.p in s.procs && HoldsSpin(s.procs[s.spin.p]))
    && (forall p :: p in s.procs && HoldsPlock(s.procs[p]) ==> s.plock == HeldBy(p))
    && (s.plock.HeldBy? ==> s.plock.p in s.procs && HoldsPlock(s.procs[s.plock.p]))
  }

  ghost predicate Holder(s: State) {
    && (forall p :: p in s.procs && Has(s.procs[p]) ==> s.locked && s.pid == p)
    && (if s.locked then 0 < s.pid && s.pid in s.procs && Has(s.procs[s.pid]) else s.pid == 0)
  }

  /** The spinlock's holder has cleared locked and has not woken the sleepers yet. */
  predicate WillWake(s: State) { s.spin.HeldBy? && s.spin.p in s.procs && s.procs[s.spin.p].Waking? }

  predicate PcOk(s: State, pc: Pc) {
    && (Sleeping(pc) ==> s.locked || WillWake(s))
    && (pc.SleepLock? || pc.SleepRelease? ==> s.locked)
    && (pc.Waking? ==> !s.locked)
  }

  ghost predicate Inv(s: State) { Spins(s) && Holder(s) && forall p :: p in s.procs ==> PcOk(s, s.procs[p]) }

  lemma GoSpins(s: State, p: Pid)
    requires Spins(s) && Enabled(s, Go(p)) && !s.procs[p].Waking?
    ensures Spins(DoGo(s, p))
  {
  }

  lemma WakingSpins(s: State, p: Pid)
    requires Spins(s) && Enabled(s, Go(p)) && s.procs[p].Waking?
    ensures Spins(DoGo(s, p))
  {
  }

  lemma SpinsStep(s: State, step: Step)
    requires Spins(s) && Enabled(s, step)
    ensures Spins(Do(s, step))
  {
    hide DoGo;
    if step.Go? {
      hide Spins, HoldsSpin, HoldsPlock;
      if s.procs[step.p].Waking? { WakingSpins(s, step.p); } else { GoSpins(s, step.p); }
    }
  }

  lemma HolderStep(s: State, step: Step)
    requires Spins(s) && Holder(s) && Enabled(s, step)
    ensures Holder(Do(s, step))
  {
  }

  lemma PcStep(s: State, step: Step)
    requires Inv(s) && Enabled(s, step)
    ensures var t := Do(s, step); forall p :: p in t.procs ==> PcOk(t, t.procs[p])
  {
  }

  lemma {:induction false} RunInv(tr: seq<State>, i: nat)
    requires IsRun(tr) && i < |tr|
    ensures Inv(tr[i])
  {
    hide Inv, IsStep;
    if i == 0 { InitInv(tr[0]); } else {
      RunInv(tr, i - 1);
      StepInv(tr[i - 1], tr[i]);
    }
  }

  lemma InitInv(s: State)
    requires Init(s)
    ensures Inv(s)
  {
  }

  lemma StepInv(s: State, t: State)
    requires Inv(s) && IsStep(s, t)
    ensures Inv(t)
  {
    hide Spins, Holder, PcOk, Enabled, Do;
    var step :| Enabled(s, step) && t == Do(s, step);
    SpinsStep(s, step);
    HolderStep(s, step);
    PcStep(s, step);
  }

  // ---- what holds in every run -----------------------------------------------------------------

  /** At most one process is between acquiresleep and releasesleep, and holdingsleep knows it. */
  lemma MutualExclusion(tr: seq<State>, i: nat, p: Pid, q: Pid)
    requires IsRun(tr) && i < |tr| && p in tr[i].procs && q in tr[i].procs && Has(tr[i].procs[p])
    ensures Has(tr[i].procs[q]) <==> q == p
    ensures Has(tr[i].procs[q]) <==> tr[i].locked && tr[i].pid == q
  {
    hide IsRun;
    RunInv(tr, i);
  }

  /** When both spinlocks are free, a process sleeps only while another has the lock. */
  lemma NoLostWakeup(tr: seq<State>, i: nat, p: Pid)
    requires IsRun(tr) && i < |tr| && tr[i].spin == Free && tr[i].plock == Free
    requires p in tr[i].procs && Sleeping(tr[i].procs[p])
    ensures tr[i].procs[p].Asleep? && tr[i].locked
    ensures 0 < tr[i].pid && tr[i].pid in tr[i].procs && Has(tr[i].procs[tr[i].pid]) && tr[i].pid != p
  {
    hide IsRun;
    RunInv(tr, i);
    assert PcOk(tr[i], tr[i].procs[p]);
  }

  /** While any process is in a call or has the lock, some process can take a step, be it the
      one that has the lock by giving it up. */
  lemma NeverStuck(tr: seq<State>, i: nat, p: Pid) returns (step: Step)
    requires IsRun(tr) && i < |tr| && p in tr[i].procs && !tr[i].procs[p].Out?
    ensures Enabled(tr[i], step) && !step.Call? && !step.Kill?
  {
    hide IsRun;
    RunInv(tr, i);
    var s := tr[i];
    assert PcOk(s, s.procs[p]);
    if s.plock.HeldBy? {
      step := Go(s.plock.p);
    } else if s.spin.HeldBy? {
      step := Go(s.spin.p);
    } else if s.procs[p].Want? || s.procs[p].Leaving? {
      step := Acquire(p);
    } else if s.procs[p].Inside? {
      step := Return(p);
    } else {
      step := if s.procs[s.pid].Inside? then Return(s.pid) else Acquire(s.pid);
    }
  }
}
