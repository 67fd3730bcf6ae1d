/** Log space: the reservation made by begin_op, and exactly when log_write's
    "too big a transaction" panic can be reached. */
module LogBudget {
  import opened Blocks
  import opened LogProtocol
  import opened LogInvariant
  import opened LogRuns

  /** Entries appended by all operations now outstanding. */
  ghost function Used(m: map<Pid, nat>): nat
    decreases |m|
  {
    if m == map[] then 0 else
      var p :| p in m;
      assert (m - {p}).Keys == m.Keys - {p};
      assert |m - {p}| == |(m - {p}).Keys|;
      m[p] + Used(m - {p})
  }

  lemma {:induction false} UsedSplit(m: map<Pid, nat>, p: Pid)
    requires p in m
    ensures Used(m) == m[p] + Used(m - {p})
    ensures |m| == |m - {p}| + 1
    decreases |m|
  {
    var q :| q in m && Used(m) == m[q] + Used(m - {q});
    assert (m - {p}).Keys == m.Keys - {p} && (m - {q}).Keys == m.Keys - {q};
    assert |m - {p}| == |(m - {p}).Keys| && |m - {q}| == |(m - {q}).Keys|;
    if q != p {
      UsedSplit(m - {q}, p);
      UsedSplit(m - {p}, q);
      assert m - {q} - {p} == m - {p} - {q};
    }
  }

  lemma UsedPut(m: map<Pid, nat>, p: Pid, v: nat)
    ensures Used(m[p := v]) == v + Used(m - {p})
    ensures |m[p := v]| == |m - {p}| + 1
  {
    var t := m[p := v];
    UsedSplit(t, p);
    assert t - {p} == m - {p};
  }

  /** The most entries the log can hold while an operation is outstanding. */
  function MostLogged(budget: nat): nat { LOGSIZE - 2 * MAXOPBLOCKS + 2 * budget }

  ghost predicate Reserved(c: Config, n: nat, ops: map<Pid, nat>) {
    && (forall p :: p in ops ==> ops[p] <= c.budget)
    && n + MAXOPBLOCKS * |ops| - Used(ops) <= LOGSIZE
    && n + c.budget * |ops| - Used(ops) <= MostLogged(c.budget)
  }

  ghost predicate BudgetInv(c: Config, s: State) {
    if Recovering(s) then s.ops == map[] else Reserved(c, |s.lh|, s.ops)
  }

  lemma ReserveBegin(c: Config, n: nat, ops: map<Pid, nat>, p: Pid)
    requires ValidConfig(c) && Reserved(c, n, ops) && p !in ops
    requires n + (|ops| + 1) * MAXOPBLOCKS <= LOGSIZE && (|ops| == 0 ==> n == 0)
    ensures Reserved(c, n, ops[p := 0])
  {
    UsedPut(ops, p, 0);
    assert ops - {p} == ops;
    var b := c.budget;
    if |ops| == 1 {
      var q :| q in ops;
      UsedSplit(ops, q);
      assert |ops - {q}| == 0;
    } else if |ops| == 2 {
      assert n == 0;
    }
  }

  lemma ReserveAppend(c: Config, n: nat, ops: map<Pid, nat>, p: Pid)
    requires Reserved(c, n, ops) && p in ops && ops[p] < c.budget
    ensures Reserved(c, n + 1, ops[p := ops[p] + 1])
  {
    hide Used;
    UsedSplit(ops, p);
    UsedPut(ops, p, ops[p] + 1);
    var ops' := ops[p := ops[p] + 1];
    assert |ops'| == |ops| && Used(ops') == Used(ops) + 1;
    assert c.budget * |ops'| == c.budget * |ops|;
  }

  lemma ReserveEnd(c: Config, n: nat, ops: map<Pid, nat>, p: Pid)
    requires Reserved(c, n, ops) && p in ops && c.budget <= MAXOPBLOCKS
    ensures Reserved(c, n, ops - {p})
  {
    UsedSplit(ops, p);
    OneMore(c.budget, |ops - {p}|);
  }

  lemma OneMore(b: nat, k: nat)
    ensures b * (k + 1) == b * k + b
  {
  }

  lemma ReserveLess(c: Config, n: nat, ops: map<Pid, nat>, n': nat)
    requires Reserved(c, n, ops) && n' <= n
    ensures Reserved(c, n', ops)
  {
  }

  lemma OtherKeepsLog(c: Config, s: State, step: Step)
    requires Enabled(c, s, step) && ValidConfig(c) && |s.disk| == c.size
    requires !step.Commit? && !step.Recover? && !step.LogWrite? && !step.BeginOp? && !step.EndOp?
    requires !step.Crash?
    ensures var t := Do(c, s, step); t.lh == s.lh && t.ops == s.ops && t.phase == s.phase
  {
  }

  lemma BudgetStep(c: Config, s: State, step: Step)
    requires Inv(c, s) && BudgetInv(c, s) && Enabled(c, s, step)
    requires ValidConfig(c) && |s.disk| == c.size
    ensures BudgetInv(c, Do(c, s, step))
  {
    hide Inv, Reserved, DoCommit, DoRecover, CommitEnabled, RecoverEnabled;
    match step
    case LogWrite(p, b) => BudgetLogWrite(c, s, p, b);
    case BeginOp(p) => BudgetBegin(c, s, p);
    case EndOp(p) => BudgetEnd(c, s, p);
    case Crash =>
    case Commit =>
      CommitHistory(c, s);
      if !Recovering(s) { ReserveLess(c, |s.lh|, s.ops, 0); }
    case Recover =>
      RecoverHistory(c, s);
      NothingReserved(c);
    case _ => OtherKeepsLog(c, s, step);
  }

  lemma BudgetLogWrite(c: Config, s: State, p: Pid, b: nat)
    requires Inv(c, s) && BudgetInv(c, s) && Enabled(c, s, LogWrite(p, b))
    ensures BudgetInv(c, DoLogWrite(s, p, b))
  {
    hide Inv, Reserved;
    if b !in s.lh { ReserveAppend(c, |s.lh|, s.ops, p); }
  }

  lemma BudgetBegin(c: Config, s: State, p: Pid)
    requires Inv(c, s) && BudgetInv(c, s) && Enabled(c, s, BeginOp(p))
    ensures BudgetInv(c, DoBegin(s, p))
  {
    hide Inv, Reserved;
    if !BeginBlocked(s) {
      IdleEmpty(c, s);
      ReserveBegin(c, |s.lh|, s.ops, p);
    }
  }

  lemma BudgetEnd(c: Config, s: State, p: Pid)
    requires Inv(c, s) && BudgetInv(c, s) && Enabled(c, s, EndOp(p))
    ensures BudgetInv(c, DoEnd(s, p))
  {
    hide Inv, Reserved;
    IdleEmpty(c, s);
    ReserveEnd(c, |s.lh|, s.ops, p);
  }

  lemma NothingReserved(c: Config)
    ensures Reserved(c, 0, map[])
  {
  }

  lemma IdleEmpty(c: Config, s: State)
    requires Inv(c, s) && !Recovering(s)
    ensures ValidConfig(c) && s.outstanding == |s.ops|
    ensures !Committing(s) && s.outstanding == 0 ==> s.lh == []
  {
  }

  lemma {:induction false} RunBudget(c: Config, tr: seq<State>, i: nat)
    requires IsRun(c, tr) && i < |tr|
    ensures BudgetInv(c, tr[i])
  {
    hide Inv, BudgetInv, Next, History;
    if i == 0 {
      BootBudget(c, tr[0]);
    } else {
      RunBudget(c, tr, i - 1);
      RunInv(c, tr, i - 1);
      NextBudget(c, tr[i - 1], tr[i]);
    }
  }

  lemma BootBudget(c: Config, s: State)
    requires Boot(c, s)
    ensures BudgetInv(c, s)
  {
  }

  lemma NextBudget(c: Config, s: State, s': State)
    requires Inv(c, s) && BudgetInv(c, s) && Next(c, s, s')
    ensures BudgetInv(c, s')
  {
    hide Inv, BudgetInv;
    var step :| Enabled(c, s, step) && s' == Do(c, s, step);
    BudgetStep(c, s, step);
  }

  /** The log plus what every outstanding operation may still append fits in LOGSIZE. */
  lemma SpaceReserved(c: Config, tr: seq<State>, i: nat)
    requires IsRun(c, tr) && i < |tr| && !Recovering(tr[i])
    ensures |tr[i].lh| + (MAXOPBLOCKS * |tr[i].ops| - Used(tr[i].ops)) <= LOGSIZE
    ensures forall p :: p in tr[i].ops ==> tr[i].ops[p] <= c.budget
  {
    hide Inv, Next;
    RunBudget(c, tr, i);
  }

  /** The "too big a transaction" test of log_write. */
  predicate TooBig(c: Config, s: State) { |s.lh| >= LOGSIZE || |s.lh| >= c.nlog - 1 }

  predicate Roomy(c: Config) {
    MostLogged(c.budget) < LOGSIZE && MostLogged(c.budget) < c.nlog - 1
  }

  ghost predicate PanicReachable(c: Config) {
    exists tr: seq<State> :: IsRun(c, tr) && tr[|tr| - 1].ops != map[] && TooBig(c, tr[|tr| - 1])
  }

  lemma RoomyNeverPanics(c: Config, tr: seq<State>)
    requires ValidConfig(c) && Roomy(c) && IsRun(c, tr) && tr[|tr| - 1].ops != map[]
    ensures !TooBig(c, tr[|tr| - 1])
  {
    var s := tr[|tr| - 1];
    hide Inv, Next, IsRun;
    RunBudget(c, tr, |tr| - 1);
    RunsRun(c, tr);
    UsedBound(c, s.ops);
  }

  lemma RunsRun(c: Config, tr: seq<State>)
    requires IsRun(c, tr) && tr[|tr| - 1].ops != map[]
    ensures !Recovering(tr[|tr| - 1])
  {
    hide Next, Inv;
    RunInv(c, tr, |tr| - 1);
    OpsNotRecovering(c, tr[|tr| - 1]);
  }

  lemma OpsNotRecovering(c: Config, s: State)
    requires Inv(c, s) && s.ops != map[]
    ensures !Recovering(s)
  {
  }

  lemma {:induction false} UsedBound(c: Config, ops: map<Pid, nat>)
    requires forall p :: p in ops ==> ops[p] <= c.budget
    ensures Used(ops) <= c.budget * |ops|
    decreases |ops|
  {
    if ops != map[] {
      var p :| p in ops;
      UsedSplit(ops, p);
      UsedBound(c, ops - {p});
      OneMore(c.budget, |ops - {p}|);
    }
  }

  // ---- the runs that panic -----------------------------------------------------------------

  /** The i-th block outside the log. */
  function HomeBlock(c: Config, i: nat): nat { if i < c.start then i else i + c.nlog }

  function HomeBlocks(c: Config, n: nat): seq<nat> { seq(n, i requires 0 <= i => HomeBlock(c, i)) }

  /** A quiet moment: n blocks logged, no buffer held, nobody asleep. */
  ghost predicate Ready(c: Config, s: State, ops: map<Pid, nat>, n: nat) {
    && s.phase.Running? && s.ops == ops && s.lh == HomeBlocks(c, n)
    && s.held == map[] && s.asleep == {} && s.syncers == map[] && s.outstanding == |ops|
  }

  lemma BootRun(c: Config, d: Disk) returns (tr: seq<State>)
    requires ValidConfig(c) && |d| == c.size && WordAt(d[c.start], 0) == 0
    ensures IsRun(c, tr) && Ready(c, tr[|tr| - 1], map[], 0)
  {
    var s0 := State(d, map[], multiset{}, map[], [], 0, RecRead, 0, {}, map[], map[], [], 0, d, d, d);
    tr := [s0];
    tr := Extend(c, tr, Recover);
    assert tr[|tr| - 1].lh == [];
    tr := Extend(c, tr, Recover);
  }

  lemma ReadyBegin(c: Config, tr: seq<State>, ops: map<Pid, nat>, n: nat, p: Pid) returns (tr': seq<State>)
    requires IsRun(c, tr) && Ready(c, tr[|tr| - 1], ops, n) && p !in ops
    requires n + (|ops| + 1) * MAXOPBLOCKS <= LOGSIZE
    ensures IsRun(c, tr') && Ready(c, tr'[|tr'| - 1], ops[p := 0], n)
  {
    hide IsRun, Next;
    tr' := Extend(c, tr, BeginOp(p));
    assert |ops[p := 0]| == |ops| + 1 by { UsedPut(ops, p, 0); assert ops - {p} == ops; }
  }

  lemma ReadyEnd(c: Config, tr: seq<State>, ops: map<Pid, nat>, n: nat, p: Pid) returns (tr': seq<State>)
    requires IsRun(c, tr) && Ready(c, tr[|tr| - 1], ops, n) && p in ops && |ops| >= 2
    ensures IsRun(c, tr') && Ready(c, tr'[|tr'| - 1], ops - {p}, n)
  {
    hide IsRun, Next;
    tr' := Extend(c, tr, EndOp(p));
    UsedSplit(ops, p);
  }

  lemma Cached(c: Config, tr: seq<State>, b: nat) returns (tr': seq<State>)
    requires IsRun(c, tr) && b < c.size
    ensures IsRun(c, tr') && b in tr'[|tr'| - 1].cache
    ensures var s, t := tr[|tr| - 1], tr'[|tr'| - 1]; t == s.(cache := t.cache)
  {
    hide Next;
    tr' := tr;
    if b !in tr[|tr| - 1].cache { tr' := Extend(c, tr, Fill(b)); }
  }

  /** The same moment, with block b held by p. */
  ghost predicate Holding(c: Config, s: State, ops: map<Pid, nat>, n: nat, p: Pid, b: nat) {
    && s.phase.Running? && s.ops == ops && s.lh == HomeBlocks(c, n)
    && s.held == map[b := p] && b in s.cache
    && s.asleep == {} && s.syncers == map[] && s.outstanding == |ops|
  }

  lemma ReadyHold(c: Config, tr: seq<State>, ops: map<Pid, nat>, n: nat, p: Pid, b: nat) returns (tr': seq<State>)
    requires IsRun(c, tr) && Ready(c, tr[|tr| - 1], ops, n) && Home(c, b)
    ensures IsRun(c, tr') && Holding(c, tr'[|tr'| - 1], ops, n, p, b)
  {
    hide Next;
    tr' := Cached(c, tr, b);
    tr' := Extend(c, tr', Hold(p, b));
  }

  lemma NextHome(c: Config, n: nat)
    ensures HomeBlock(c, n) !in HomeBlocks(c, n) && HomeBlocks(c, n) + [HomeBlock(c, n)] == HomeBlocks(c, n + 1)
    ensures |HomeBlocks(c, n)| == n
  {
  }

  lemma HoldingEnabled(c: Config, s: State, ops: map<Pid, nat>, n: nat, p: Pid, b: nat)
    requires Holding(c, s, ops, n, p, b) && p in ops && ops[p] < c.budget && n < LOGSIZE && n < c.nlog - 1
    ensures Enabled(c, s, LogWrite(p, b))
  {
    assert |s.lh| == n;
  }

  lemma HoldingLog(c: Config, tr: seq<State>, ops: map<Pid, nat>, n: nat, p: Pid) returns (tr': seq<State>)
    requires IsRun(c, tr) && Holding(c, tr[|tr| - 1], ops, n, p, HomeBlock(c, n))
    requires p in ops && ops[p] < c.budget && n < LOGSIZE && n < c.nlog - 1
    ensures IsRun(c, tr') && Holding(c, tr'[|tr'| - 1], ops[p := ops[p] + 1], n + 1, p, HomeBlock(c, n))
    ensures var s := tr'[|tr'| - 1]; HomeBlock(c, n) < |s.cur| ==> s.cache[HomeBlock(c, n)] == s.cur[HomeBlock(c, n)]
  {
    assert tr != [];
    hide Next, IsRun, HomeBlock, HomeBlocks, Enabled, DoLogWrite;
    var s, b := tr[|tr| - 1], HomeBlock(c, n);
    NextHome(c, n);
    HoldingEnabled(c, s, ops, n, p, b);
    LogWriteFields(s, p, b);
    tr' := Extend(c, tr, LogWrite(p, b));
  }

  /** Operation p reads, logs and gives back the next unlogged block. */
  lemma ReadyWrite(c: Config, tr: seq<State>, ops: map<Pid, nat>, n: nat, p: Pid) returns (tr': seq<State>)
    requires IsRun(c, tr) && Ready(c, tr[|tr| - 1], ops, n) && p in ops && ops[p] < c.budget
    requires n < LOGSIZE && n < c.nlog - 1 && ValidConfig(c) && c.size >= c.nlog + LOGSIZE
    ensures IsRun(c, tr') && Ready(c, tr'[|tr'| - 1], ops[p := ops[p] + 1], n + 1)
  {
    hide Next, Inv, History;
    var b := HomeBlock(c, n);
    tr' := ReadyHold(c, tr, ops, n, p, b);
    tr' := HoldingLog(c, tr', ops, n, p);
    RunInv(c, tr', |tr'| - 1);
    InvSizes(c, tr'[|tr'| - 1]);
    tr' := Extend(c, tr', Release(p, b));
    assert tr'[|tr'| - 1].held == map[];
  }

  lemma {:induction false} WriteMany(c: Config, tr: seq<State>, ops: map<Pid, nat>, n: nat, p: Pid, m: nat)
    returns (tr': seq<State>)
    requires IsRun(c, tr) && Ready(c, tr[|tr| - 1], ops, n) && p in ops && ops[p] + m <= c.budget
    requires n + m <= LOGSIZE && n + m <= c.nlog - 1 && ValidConfig(c) && c.size >= c.nlog + LOGSIZE
    ensures IsRun(c, tr') && Ready(c, tr'[|tr'| - 1], ops[p := ops[p] + m], n + m)
    decreases m
  {
    hide IsRun, Ready;
    if m == 0 {
      tr' := tr;
      assert ops[p := ops[p] + m] == ops;
    } else {
      tr' := WriteMany(c, tr, ops, n, p, m - 1);
      var ops' := ops[p := ops[p] + (m - 1)];
      tr' := ReadyWrite(c, tr', ops', n + (m - 1), p);
      assert ops'[p := ops'[p] + 1] == ops[p := ops[p] + m];
    }
  }

  /** While operation 1 stays open, short operations fill the log to n <= 10 blocks. */
  lemma {:induction false} ShortOps(c: Config, d: Disk, n: nat) returns (tr: seq<State>)
    requires ValidConfig(c) && c.size >= c.nlog + LOGSIZE
    requires |d| == c.size && WordAt(d[c.start], 0) == 0
    requires n <= LOGSIZE - 2 * MAXOPBLOCKS && n <= c.nlog - 1
    ensures IsRun(c, tr) && Ready(c, tr[|tr| - 1], map[1 := 0], n)
    decreases n
  {
    hide IsRun, Ready;
    if n == 0 {
      tr := BootRun(c, d);
      tr := ReadyBegin(c, tr, map[], 0, 1);
    } else {
      tr := ShortOps(c, d, n - 1);
      tr := ReadyBegin(c, tr, map[1 := 0], n - 1, 2);
      var ops := map[1 := 0][2 := 0];
      tr := ReadyWrite(c, tr, ops, n - 1, 2);
      tr := ReadyEnd(c, tr, ops[2 := 1], n, 2);
      assert ops[2 := 1] - {2} == map[1 := 0];
    }
  }

  lemma TightPanics(c: Config, d: Disk)
    requires ValidConfig(c) && !Roomy(c) && c.size >= c.nlog + LOGSIZE
    requires |d| == c.size && WordAt(d[c.start], 0) == 0
    ensures PanicReachable(c)
  {
    hide IsRun, Ready, PanicReachable;
    var full := if LOGSIZE <= c.nlog - 1 then LOGSIZE else c.nlog - 1;
    var few := LOGSIZE - 2 * MAXOPBLOCKS;
    var tr: seq<State>;
    if full <= few {
      tr := ShortOps(c, d, full);
      FullPanics(c, tr, map[1 := 0], full);
    } else {
      tr := ShortOps(c, d, few);
      tr := ReadyBegin(c, tr, map[1 := 0], few, 3);
      assert map[1 := 0][3 := 0] == map[1 := 0, 3 := 0];
      var ops: map<Pid, nat>;
      tr, ops := BothWrite(c, tr, few, full - few);
      FullPanics(c, tr, ops, full);
    }
  }

  /** Two operations that have logged nothing yet log m blocks between them. */
  lemma BothWrite(c: Config, tr: seq<State>, n: nat, m: nat) returns (tr': seq<State>, ops: map<Pid, nat>)
    requires IsRun(c, tr) && Ready(c, tr[|tr| - 1], map[1 := 0, 3 := 0], n)
    requires m <= 2 * c.budget && n + m <= LOGSIZE && n + m <= c.nlog - 1
    requires ValidConfig(c) && c.size >= c.nlog + LOGSIZE
    ensures IsRun(c, tr') && 1 in ops && Ready(c, tr'[|tr'| - 1], ops, n + m)
  {
    hide IsRun, Ready;
    var a := if m <= c.budget then m else c.budget;
    ops := map[1 := 0, 3 := 0];
    tr' := WriteMany(c, tr, ops, n, 3, a);
    ops := ops[3 := ops[3] + a];
    tr' := WriteMany(c, tr', ops, n + a, 1, m - a);
    ops := ops[1 := ops[1] + (m - a)];
  }

  lemma FullPanics(c: Config, tr: seq<State>, ops: map<Pid, nat>, n: nat)
    requires IsRun(c, tr) && Ready(c, tr[|tr| - 1], ops, n) && 1 in ops
    requires n == LOGSIZE || n == c.nlog - 1
    ensures PanicReachable(c)
  {
  }

  /** The panic is unreachable exactly when ten entries of slack plus two full operations stay
      below both limits: LOGSIZE - 2*MAXOPBLOCKS + 2*budget < min(LOGSIZE, nlog - 1). */
  lemma PanicExactly(c: Config, d: Disk)
    requires ValidConfig(c) && c.size >= c.nlog + LOGSIZE
    requires |d| == c.size && WordAt(d[c.start], 0) == 0
    ensures PanicReachable(c) <==> !Roomy(c)
  {
    hide TooBig, Next;
    if !Roomy(c) {
      TightPanics(c, d);
    } else if PanicReachable(c) {
      var tr: seq<State> :| IsRun(c, tr) && tr[|tr| - 1].ops != map[] && TooBig(c, tr[|tr| - 1]);
      RoomyNeverPanics(c, tr);
    }
  }

  /** With the nlog = LOGSIZE that mkfs writes, operations that use all of MAXOPBLOCKS can
      panic the log, and operations that stay one block below it cannot. */
  lemma ShippedLog(c: Config, d: Disk)
    requires ValidConfig(c) && c.nlog == LOGSIZE && c.size >= c.nlog + LOGSIZE
    requires |d| == c.size && WordAt(d[c.start], 0) == 0
    ensures PanicReachable(c) <==> c.budget == MAXOPBLOCKS
  {
    PanicExactly(c, d);
  }
}
