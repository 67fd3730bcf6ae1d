/** The write-ahead log as a protocol: every step that one process can take while it holds
    the log lock, a buffer lock, or the commit, and one step for each single disk write.
    Eviction of unpinned buffers and crashes may come between any two steps. */
module LogProtocol {
  import opened Blocks

  const MAXOPBLOCKS := 10
  const LOGSIZE := 30

  type Pid = nat

  /** start/nlog/size come from the superblock; budget bounds the entries one operation appends. */
  datatype Config = Config(start: nat, nlog: nat, size: nat, budget: nat)

  predicate ValidConfig(c: Config) {
    c.start + c.nlog <= c.size <= UINT && 2 <= c.nlog && 1 <= c.budget <= MAXOPBLOCKS
  }

  predicate Home(c: Config, b: nat) {
    b < c.size && !(c.start <= b < c.start + c.nlog)
  }

  datatype Event = Begin(p: Pid) | Write(p: Pid, b: nat, data: Block) | End(p: Pid)

  /** Running: not committing. WriteLog/Install/Finish: inside commit, after k blocks.
      The Rec phases are recover_from_log after a boot. */
  datatype Phase =
    | Running | WriteLog(k: nat) | Install(k: nat) | Finish
    | RecRead | RecInstall(k: nat)

  datatype SyncCall = SyncCall(n: nat, need: nat)

  /** disk survives a crash. The last line and the counts in ops are history: they say what
      the operations did, and guide no transition of the code. cur is the effect of all of
      events on init, img that of the durable ones. */
  datatype State = State(
    disk: Disk,
    cache: map<nat, Block>, pins: multiset<nat>, held: map<nat, Pid>,
    lh: seq<nat>, outstanding: nat, phase: Phase, ncommit: nat,
    asleep: set<Pid>, syncers: map<Pid, SyncCall>,
    ops: map<Pid, nat>, events: seq<Event>, durable: nat, init: Disk, cur: Disk, img: Disk)

  // ---- the specification: operations replayed in order -------------------------------

  function ApplyEvent(d: Disk, e: Event): Disk {
    if e.Write? && e.b < |d| then d[e.b := e.data] else d
  }

  function Replay(d: Disk, es: seq<Event>): (r: Disk)
    ensures |r| == |d|
  {
    if es == [] then d else ApplyEvent(Replay(d, es[..|es| - 1]), es[|es| - 1])
  }

  /** Operations begun and not ended. */
  function OpenOps(es: seq<Event>): set<Pid> {
    if es == [] then {} else
      var before := OpenOps(es[..|es| - 1]);
      match es[|es| - 1]
      case Begin(p) => before + {p}
      case End(p) => before - {p}
      case Write(_, _, _) => before
  }

  // ---- the header block ----------------------------------------------------------------

  function DecodeHead(b: Block): (h: seq<nat>) {
    seq(WordAt(b, 0), i requires 0 <= i => if 1 + i < WORDS then WordAt(b, 1 + i) else 0)
  }

  /** write_head overwrites n and the first n block numbers of the old header block. */
  function EncodeEntries(b: Block, lh: seq<nat>): Block
    requires |lh| < WORDS && forall i :: 0 <= i < |lh| ==> lh[i] < UINT
  {
    if lh == [] then b
    else SetWord(EncodeEntries(b, lh[..|lh| - 1]), |lh|, lh[|lh| - 1])
  }

  function EncodeHead(b: Block, lh: seq<nat>): Block
    requires |lh| < WORDS && forall i :: 0 <= i < |lh| ==> lh[i] < UINT
  {
    EncodeEntries(SetWord(b, 0, |lh|), lh)
  }

  // ---- what a boot makes of a disk -------------------------------------------------------

  /** The disk after install_trans has copied the first k logged blocks home. */
  function InstallFirst(c: Config, d: Disk, lh: seq<nat>, k: nat): (r: Disk)
    requires k <= |lh|
    ensures |r| == |d|
  {
    if k == 0 then d else
      var r := InstallFirst(c, d, lh, k - 1);
      if c.start + k < |d| && lh[k - 1] < |d| then r[lh[k - 1] := r[c.start + k]] else r
  }

  /** The disk left by one complete run of recover_from_log, before the header is cleared. */
  function Recovered(c: Config, d: Disk): Disk
    requires c.start < |d|
  {
    var lh := DecodeHead(d[c.start]);
    InstallFirst(c, d, lh, |lh|)
  }

  ghost predicate SameHome(c: Config, d: Disk, e: Disk) {
    |d| == |e| == c.size && forall b: nat :: Home(c, b) ==> d[b] == e[b]
  }

  // ---- steps -----------------------------------------------------------------------------

  datatype Step =
    | Fill(b: nat) | Evict(b: nat)
    | Hold(p: Pid, b: nat) | Release(p: Pid, b: nat) | Modify(p: Pid, b: nat, x: Block)
    | LogWrite(p: Pid, b: nat)
    | BeginOp(p: Pid) | EndOp(p: Pid)
    | Commit | Recover | Crash
    | Sync(p: Pid) | SyncCheck(p: Pid)

  function Bread(s: State, b: nat): Block
    requires b < |s.disk|
  {
    if b in s.cache then s.cache[b] else s.disk[b]
  }

  function Bwrite(s: State, b: nat, x: Block): State
    requires b < |s.disk|
  {
    s.(disk := s.disk[b := x], cache := s.cache[b := x])
  }

  predicate Recovering(s: State) { s.phase.RecRead? || s.phase.RecInstall? }

  /** log.committing */
  predicate Committing(s: State) { s.phase.WriteLog? || s.phase.Install? || s.phase.Finish? }

  predicate BeginBlocked(s: State) {
    Committing(s) || |s.lh| + (s.outstanding + 1) * MAXOPBLOCKS > LOGSIZE
  }

  /** The first two tests of log_write. */
  predicate LogWritePanics(c: Config, s: State) {
    |s.lh| >= LOGSIZE || |s.lh| >= c.nlog - 1 || s.outstanding < 1
  }

  predicate Idle(s: State, p: Pid) {
    p !in s.ops && p !in s.asleep && p !in s.syncers
  }

  /** What the code, and the discipline of its callers, allow. A buffer is given back only
      when its contents have been log_written since they were last modified. */
  ghost predicate Enabled(c: Config, s: State, step: Step) {
    match step
    case Fill(b) => b < c.size && b !in s.cache
    case Evict(b) => b in s.cache && b !in s.held && b !in s.pins
    case Hold(p, b) => !Recovering(s) && Home(c, b) && b in s.cache && b !in s.held
    case Release(p, b) =>
      b in s.held && s.held[b] == p && b < |s.cur| && b in s.cache && s.cache[b] == s.cur[b]
    case Modify(p, b, x) => p in s.ops && b in s.held && s.held[b] == p
    case LogWrite(p, b) =>
      && p in s.ops && b in s.held && s.held[b] == p && b in s.cache
      && !LogWritePanics(c, s) && (b in s.lh || s.ops[p] < c.budget)
    case BeginOp(p) => !Recovering(s) && Idle(s, p)
    case EndOp(p) => p in s.ops && p !in s.held.Values && s.outstanding > 0
    case Commit => CommitEnabled(c, s)
    case Recover => RecoverEnabled(c, s)
    case Crash => s.durable <= |s.events|
    case Sync(p) => !Recovering(s) && Idle(s, p)
    case SyncCheck(p) => p in s.syncers && p !in s.asleep
  }

  predicate HeaderFits(lh: seq<nat>) {
    |lh| < WORDS && forall i :: 0 <= i < |lh| ==> lh[i] < UINT
  }

  /** Sizes that make each single write of commit and recovery well defined. */
  predicate CommitEnabled(c: Config, s: State) {
    && Committing(s) && c.start < |s.disk| && HeaderFits(s.lh)
    && (s.phase.WriteLog? ==>
      s.phase.k <= |s.lh| &&
      (s.phase.k < |s.lh| ==> c.start + 1 + s.phase.k < |s.disk| && s.lh[s.phase.k] < |s.disk|))
    && (s.phase.Install? ==>
      s.phase.k <= |s.lh| &&
      (s.phase.k < |s.lh| ==> c.start + 1 + s.phase.k < |s.disk| && s.lh[s.phase.k] < |s.disk|))
  }

  predicate RecoverEnabled(c: Config, s: State) {
    && Recovering(s) && c.start < |s.disk|
    && (s.phase.RecInstall? ==>
      s.phase.k <= |s.lh| &&
      (s.phase.k < |s.lh| ==> c.start + 1 + s.phase.k < |s.disk| && s.lh[s.phase.k] < |s.disk|))
  }

  function WriteHead(c: Config, s: State): State
    requires c.start < |s.disk| && HeaderFits(s.lh)
  {
    Bwrite(s, c.start, EncodeHead(Bread(s, c.start), s.lh))
  }

  /** One iteration of install_trans. */
  function InstallOne(c: Config, s: State, k: nat): State
    requires k < |s.lh| && c.start + 1 + k < |s.disk| && s.lh[k] < |s.disk|
  {
    Bwrite(s, s.lh[k], Bread(s, c.start + 1 + k))
  }

  /** One block of write_log, or the write_head that commits. */
  function DoWriteLog(c: Config, s: State, k: nat): State
    requires CommitEnabled(c, s) && s.phase == WriteLog(k)
  {
    if k < |s.lh| then Bwrite(s, c.start + 1 + k, Bread(s, s.lh[k])).(phase := WriteLog(k + 1))
    else WriteHead(c, s).(phase := Install(0), durable := |s.events|, img := s.cur)
  }

  /** One block of install_trans, or the write_head that erases the log. */
  function DoInstall(c: Config, s: State, k: nat): State
    requires CommitEnabled(c, s) && s.phase == Install(k)
  {
    if k < |s.lh| then
      InstallOne(c, s, k).(pins := s.pins - multiset{s.lh[k]}, phase := Install(k + 1))
    else WriteHead(c, s.(lh := [])).(phase := Finish)
  }

  function DoCommit(c: Config, s: State): State
    requires CommitEnabled(c, s)
  {
    match s.phase
    case WriteLog(k) => DoWriteLog(c, s, k)
    case Install(k) => DoInstall(c, s, k)
    case _ => s.(phase := Running, ncommit := s.ncommit + 1, asleep := {})
  }

  function DoRecover(c: Config, s: State): State
    requires RecoverEnabled(c, s)
  {
    match s.phase
    case RecInstall(k) =>
      if k < |s.lh| then InstallOne(c, s, k).(phase := RecInstall(k + 1))
      else WriteHead(c, s.(lh := [])).(phase := Running)
    case _ => s.(lh := DecodeHead(Bread(s, c.start)), phase := RecInstall(0))
  }

  /** Everything in memory is lost; of the history only what was durable remains. */
  function DoCrash(s: State): State
    requires s.durable <= |s.events|
  {
    State(s.disk, map[], multiset{}, map[], [], 0, RecRead, 0, {}, map[], map[],
      s.events[..s.durable], s.durable, s.init, s.img, s.img)
  }

  function DoEnd(s: State, p: Pid): State
    requires p in s.ops && s.outstanding > 0
  {
    var t := s.(ops := s.ops - {p}, outstanding := s.outstanding - 1, events := s.events + [End(p)]);
    if t.outstanding > 0 then t.(asleep := {})
    else if s.lh == [] then t.(phase := Finish, durable := |t.events|, img := s.cur)
    else t.(phase := WriteLog(0))
  }

  function DoLogWrite(s: State, p: Pid, b: nat): State
    requires p in s.ops && b in s.cache
  {
    var t := s.(events := s.events + [Write(p, b, s.cache[b])],
                cur := if b < |s.cur| then s.cur[b := s.cache[b]] else s.cur);
    if b in s.lh then t
    else t.(lh := s.lh + [b], pins := s.pins + multiset{b}, ops := s.ops[p := s.ops[p] + 1])
  }

  function DoBegin(s: State, p: Pid): State {
    if BeginBlocked(s) then s.(asleep := s.asleep + {p})
    else s.(ops := s.ops[p := 0], outstanding := s.outstanding + 1, events := s.events + [Begin(p)])
  }

  function DoSync(s: State, p: Pid): State {
    if Committing(s) || s.outstanding > 0 then
      s.(asleep := s.asleep + {p}, syncers := s.syncers[p := SyncCall(s.ncommit + 1, |s.events|)])
    else s
  }

  function DoSyncCheck(s: State, p: Pid): State
    requires p in s.syncers
  {
    if s.ncommit < s.syncers[p].n then s.(asleep := s.asleep + {p})
    else s.(syncers := s.syncers - {p})
  }

  ghost function Do(c: Config, s: State, step: Step): State
    requires ValidConfig(c) && |s.disk| == c.size && Enabled(c, s, step)
  {
    match step
    case Fill(b) => s.(cache := s.cache[b := s.disk[b]])
    case Evict(b) => s.(cache := s.cache - {b})
    case Hold(p, b) => s.(held := s.held[b := p])
    case Release(p, b) => s.(held := s.held - {b})
    case Modify(p, b, x) => s.(cache := s.cache[b := x])
    case LogWrite(p, b) => DoLogWrite(s, p, b)
    case BeginOp(p) => DoBegin(s, p)
    case EndOp(p) => DoEnd(s, p)
    case Commit => DoCommit(c, s)
    case Recover => DoRecover(c, s)
    case Crash => DoCrash(s)
    case Sync(p) => DoSync(s, p)
    case SyncCheck(p) => DoSyncCheck(s, p)
  }

  ghost predicate Next(c: Config, s: State, s': State) {
    ValidConfig(c) && |s.disk| == c.size &&
    exists step :: Enabled(c, s, step) && s' == Do(c, s, step)
  }

  /** A boot from a disk whose log is empty, as mkfs leaves it. */
  predicate Boot(c: Config, s: State) {
    && ValidConfig(c) && |s.disk| == c.size
    && WordAt(s.disk[c.start], 0) == 0
    && s == State(s.disk, map[], multiset{}, map[], [], 0, RecRead, 0, {}, map[], map[], [], 0, s.disk, s.disk, s.disk)
  }

  ghost predicate IsRun(c: Config, tr: seq<State>) {
    && tr != [] && Boot(c, tr[0])
    && forall i :: 0 <= i < |tr| - 1 ==> Next(c, tr[i], tr[i + 1])
  }
}
