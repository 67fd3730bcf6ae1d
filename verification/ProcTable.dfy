/** The process table of proc.c: fork, exit, wait, sleep, wakeup and kill. Each method is what
    one process does to the table while it holds ptable.lock (or, where it says so, without
    it), so Valid is what holds whenever the lock is free. */
module ProcTable {
  const NPROC := 64
  const NONE := -1

  datatype ProcState = Unused | Embryo | Sleeping | Runnable | Running | Zombie

  /** What a process sleeps on: nothing, a slot of the table (as wait does), or anything else. */
  datatype Chan = NoChan | OnProc(i: int) | Other(id: nat)

  datatype WaitResult = Reaped(pid: nat) | Failed | Asleep

  // ---- the invariant, over the columns of the table --------------------------------------------

  /** A process that is past its fork and has not exited. */
  predicate Live(st: seq<ProcState>, i: int) {
    0 <= i < |st| && (st[i] == Runnable || st[i] == Running || st[i] == Sleeping)
  }

  /** Process i sleeps in wait. */
  predicate InWait(st: seq<ProcState>, ch: seq<Chan>, i: int) {
    0 <= i < |st| == |ch| && st[i] == Sleeping && ch[i] == OnProc(i)
  }

  /** Every recorded parent is alive; whoever runs, sleeps or has exited has one, but init. */
  ghost predicate ParentsOk(st: seq<ProcState>, pt: seq<int>, init: nat) {
    && |st| == |pt| == NPROC && Live(st, init) && pt[init] == NONE
    && (forall i :: 0 <= i < NPROC && pt[i] != NONE ==> Live(st, pt[i]) && pt[i] != i)
    && (forall i :: 0 <= i < NPROC && st[i] == Unused ==> pt[i] == NONE)
    && (forall i :: 0 <= i < NPROC && i != init && pt[i] == NONE ==> st[i] == Unused || st[i] == Embryo)
  }

  /** No process sleeps in wait while a child of it is a zombie. */
  ghost predicate NoMissedExit(st: seq<ProcState>, pt: seq<int>, ch: seq<Chan>) {
    && |st| == |pt| == |ch| == NPROC
    && forall i :: 0 <= i < NPROC && st[i] == Zombie ==> !InWait(st, ch, pt[i])
  }

  /** Pids are unique; a pid has exited when its process is a zombie or was reaped, never both. */
  ghost predicate PidsOk(st: seq<ProcState>, pd: seq<nat>, nextpid: nat, exited: set<nat>, reaped: set<nat>) {
    && |st| == |pd| == NPROC
    && (forall i :: 0 <= i < NPROC ==> pd[i] < nextpid)
    && (forall i, j :: 0 <= i < j < NPROC && st[i] != Unused && st[j] != Unused ==> pd[i] != pd[j])
    && (forall i :: 0 <= i < NPROC && st[i] != Unused ==> (pd[i] in exited <==> st[i] == Zombie))
    && (forall i :: 0 <= i < NPROC && st[i] != Unused ==> pd[i] !in reaped)
    && reaped <= exited && (forall x :: x in exited ==> x < nextpid)
    && (forall x :: x in exited - reaped ==> ZombieWith(st, pd, x))
  }

  /** An unused slot's pid is 0 or that of an embryo that was given back; no process in the
      table has such a pid. */
  ghost predicate StaleOk(st: seq<ProcState>, pd: seq<nat>, nextpid: nat, abandoned: set<nat>) {
    && |st| == |pd| == NPROC && 0 < nextpid
    && (forall i :: 0 <= i < NPROC ==> (st[i] == Unused <==> Stale(pd[i], abandoned)))
    && (forall x :: x in abandoned ==> 0 < x < nextpid)
  }

  predicate Stale(x: nat, abandoned: set<nat>) { x == 0 || x in abandoned }

  /** struck gives, for each slot that kill has found since wait last gave it back, the pid that
      kill was looking for. Those slots are the marked ones; of a slot that holds no process
      yet the pid was a stale one, or is the embryo's. */
  ghost predicate MarksOk(st: seq<ProcState>, pd: seq<nat>, kd: seq<bool>, struck: map<nat, nat>, abandoned: set<nat>) {
    && |st| == |pd| == |kd| == NPROC
    && (forall i: nat :: i < NPROC ==> (kd[i] <==> i in struck))
    && (forall i: nat :: i in struck ==> i < NPROC)
    && (forall i: nat :: i in struck && (st[i] == Unused || st[i] == Embryo) ==>
          Stale(struck[i], abandoned) || (st[i] == Embryo && struck[i] == pd[i]))
  }

  ghost predicate ZombieWith(st: seq<ProcState>, pd: seq<nat>, x: nat)
    requires |st| == |pd|
  {
    exists i :: 0 <= i < |st| && st[i] == Zombie && pd[i] == x
  }

  /** wakeup1: every process asleep on c becomes runnable, and nothing else changes. */
  function Woken(st: seq<ProcState>, ch: seq<Chan>, c: Chan): (r: seq<ProcState>)
    requires |st| == |ch|
    ensures |r| == |st|
  {
    seq(|st|, i requires 0 <= i < |st| => if st[i] == Sleeping && ch[i] == c then Runnable else st[i])
  }

  /** The children of cur are handed to init. */
  function Orphaned(pt: seq<int>, cur: int, init: nat): (r: seq<int>)
    ensures |r| == |pt|
  {
    seq(|pt|, i requires 0 <= i < |pt| => if pt[i] == cur then init else pt[i])
  }

  ghost predicate ZombieChild(st: seq<ProcState>, pt: seq<int>, cur: int, n: nat)
    requires n <= |st| == |pt|
  {
    exists i :: 0 <= i < n && pt[i] == cur && st[i] == Zombie
  }

  /** The states after exit: the parent is awake, init is if it got a zombie, cur is a zombie. */
  ghost function Exited(st: seq<ProcState>, pt: seq<int>, ch: seq<Chan>, cur: nat, init: nat): seq<ProcState>
    requires |st| == |pt| == |ch| && cur < |st|
  {
    var st1 := Woken(st, ch, OnProc(pt[cur]));
    var st2 := if ZombieChild(st1, pt, cur, |st|) then Woken(st1, ch, OnProc(init)) else st1;
    st2[cur := Zombie]
  }

  // ---- exit and wait keep it -------------------------------------------------------------------

  lemma WokenStates(st: seq<ProcState>, ch: seq<Chan>, c: Chan)
    requires |st| == |ch|
    ensures forall i :: 0 <= i < |st| ==> (Woken(st, ch, c)[i] == Zombie <==> st[i] == Zombie)
    ensures forall i :: 0 <= i < |st| ==> (Woken(st, ch, c)[i] == Unused <==> st[i] == Unused)
    ensures forall i :: 0 <= i < |st| ==> (Woken(st, ch, c)[i] == Embryo <==> st[i] == Embryo)
    ensures forall i {:trigger Live(Woken(st, ch, c), i)} :: Live(Woken(st, ch, c), i) <==> Live(st, i)
    ensures forall i :: InWait(Woken(st, ch, c), ch, i) <==> InWait(st, ch, i) && c != OnProc(i)
  {
  }

  /** Waking anybody keeps the invariant. */
  lemma WokenKeeps(st: seq<ProcState>, pt: seq<int>, ch: seq<Chan>, pd: seq<nat>, c: Chan,
                   init: nat, nextpid: nat, exited: set<nat>, reaped: set<nat>)
    requires ParentsOk(st, pt, init) && NoMissedExit(st, pt, ch) && PidsOk(st, pd, nextpid, exited, reaped)
    ensures var w := Woken(st, ch, c);
      ParentsOk(w, pt, init) && NoMissedExit(w, pt, ch) && PidsOk(w, pd, nextpid, exited, reaped)
  {
    WokenStates(st, ch, c);
    SameKinds(st, Woken(st, ch, c), pd, nextpid, exited, reaped);
  }

  lemma SameKinds(st: seq<ProcState>, st': seq<ProcState>, pd: seq<nat>, nextpid: nat, exited: set<nat>,
                  reaped: set<nat>)
    requires PidsOk(st, pd, nextpid, exited, reaped) && |st'| == |st|
    requires forall i :: 0 <= i < |st| ==> (st'[i] == Zombie <==> st[i] == Zombie)
    requires forall i :: 0 <= i < |st| ==> (st'[i] == Unused <==> st[i] == Unused)
    ensures PidsOk(st', pd, nextpid, exited, reaped)
  {
  }

  /** After the parent is awake and the zombie children are init's with init awake, cur may
      become a zombie. */
  lemma ExitedKeeps(st: seq<ProcState>, pt: seq<int>, ch: seq<Chan>, cur: nat, init: nat)
    requires ParentsOk(st, pt, init) && NoMissedExit(st, pt, ch)
    requires cur < NPROC && st[cur] == Running && cur != init
    ensures ParentsOk(Exited(st, pt, ch, cur, init), Orphaned(pt, cur, init), init)
    ensures NoMissedExit(Exited(st, pt, ch, cur, init), Orphaned(pt, cur, init), ch)
  {
    var st1 := Woken(st, ch, OnProc(pt[cur]));
    WokenStates(st, ch, OnProc(pt[cur]));
    WokenStates(st1, ch, OnProc(init));
    var z := ZombieChild(st1, pt, cur, |st|);
    var st2 := if z then Woken(st1, ch, OnProc(init)) else st1;
    var st3, pt' := st2[cur := Zombie], Orphaned(pt, cur, init);
    assert Live(st, pt[cur]);
    forall i | 0 <= i < NPROC && pt'[i] != NONE ensures Live(st3, pt'[i]) {
      assert pt[i] != NONE && pt'[i] != cur;
      assert Live(st, pt'[i]);
    }
    forall i | 0 <= i < NPROC && st3[i] == Zombie ensures !InWait(st3, ch, pt'[i]) {
      if i != cur && pt[i] == cur { assert z; }
    }
  }

  lemma ExitedPids(st: seq<ProcState>, pt: seq<int>, ch: seq<Chan>, pd: seq<nat>, cur: nat, init: nat,
                   nextpid: nat, exited: set<nat>, reaped: set<nat>)
    requires |pt| == |ch| == NPROC && PidsOk(st, pd, nextpid, exited, reaped) && cur < NPROC && st[cur] == Running
    ensures PidsOk(Exited(st, pt, ch, cur, init), pd, nextpid, exited + {pd[cur]}, reaped)
  {
    var st1 := Woken(st, ch, OnProc(pt[cur]));
    WokenStates(st, ch, OnProc(pt[cur]));
    WokenStates(st1, ch, OnProc(init));
    var st2 := if ZombieChild(st1, pt, cur, |st|) then Woken(st1, ch, OnProc(init)) else st1;
    SameKinds(st, st2, pd, nextpid, exited, reaped);
    var st3 := st2[cur := Zombie];
    forall x | x in exited + {pd[cur]} - reaped ensures ZombieWith(st3, pd, x) {
      if x in exited {
        assert ZombieWith(st2, pd, x);
        var i :| 0 <= i < |st| && st2[i] == Zombie && pd[i] == x;
        assert st3[i] == Zombie;
      } else {
        assert st3[cur] == Zombie;
      }
    }
  }

  /** A zombie's slot is given back: its pid is reaped now, and was not before. */
  lemma ReapKeeps(st: seq<ProcState>, pt: seq<int>, ch: seq<Chan>, pd: seq<nat>, k: nat,
                  init: nat, nextpid: nat, exited: set<nat>, reaped: set<nat>)
    requires ParentsOk(st, pt, init) && NoMissedExit(st, pt, ch) && PidsOk(st, pd, nextpid, exited, reaped)
    requires k < NPROC && st[k] == Zombie
    ensures pd[k] in exited && pd[k] !in reaped
    ensures var st', pt', pd' := st[k := Unused], pt[k := NONE], pd[k := 0];
      && ParentsOk(st', pt', init) && NoMissedExit(st', pt', ch)
      && PidsOk(st', pd', nextpid, exited, reaped + {pd[k]})
  {
    var st', pd' := st[k := Unused], pd[k := 0];
    forall x | x in exited - (reaped + {pd[k]}) ensures ZombieWith(st', pd', x) {
      assert ZombieWith(st, pd, x);
      var i :| 0 <= i < |st| && st[i] == Zombie && pd[i] == x;
      assert st'[i] == Zombie && pd'[i] == x;
    }
  }

  /** A state that is neither Unused nor Zombie changes to another such state. */
  lemma StateKeeps(st: seq<ProcState>, pt: seq<int>, ch: seq<Chan>, ch': seq<Chan>, pd: seq<nat>, k: nat, x: ProcState,
                   init: nat, nextpid: nat, exited: set<nat>, reaped: set<nat>)
    requires ParentsOk(st, pt, init) && NoMissedExit(st, pt, ch) && PidsOk(st, pd, nextpid, exited, reaped)
    requires k < NPROC && x != Unused && x != Zombie && x != Embryo
    requires Live(st, k) || (st[k] == Embryo && pt[k] != NONE)
    requires |ch'| == NPROC && (forall i :: 0 <= i < NPROC && i != k ==> ch'[i] == ch[i])
    requires InWait(st[k := x], ch', k) ==> forall i :: 0 <= i < NPROC && pt[i] == k ==> st[i] != Zombie
    ensures var st' := st[k := x];
      ParentsOk(st', pt, init) && NoMissedExit(st', pt, ch') && PidsOk(st', pd, nextpid, exited, reaped)
  {
    var st' := st[k := x];
    SameKinds(st, st', pd, nextpid, exited, reaped);
    forall i | 0 <= i < NPROC && pt[i] != NONE ensures Live(st', pt[i]) { assert Live(st, pt[i]) && pt[i] != i; }
    forall i | 0 <= i < NPROC && st'[i] == Zombie ensures !InWait(st', ch', pt[i]) {
      assert !InWait(st, ch, pt[i]);
    }
  }

  /** A free slot becomes an embryo with a pid never used before. */
  lemma AllocKeeps(st: seq<ProcState>, pt: seq<int>, ch: seq<Chan>, pd: seq<nat>, k: nat,
                   init: nat, nextpid: nat, exited: set<nat>, reaped: set<nat>)
    requires ParentsOk(st, pt, init) && NoMissedExit(st, pt, ch) && PidsOk(st, pd, nextpid, exited, reaped)
    requires k < NPROC && st[k] == Unused
    ensures var st', pd' := st[k := Embryo], pd[k := nextpid];
      ParentsOk(st', pt, init) && NoMissedExit(st', pt, ch) && PidsOk(st', pd', nextpid + 1, exited, reaped)
  {
  }

  /** An embryo nobody has adopted goes back. */
  lemma AbandonKeeps(st: seq<ProcState>, pt: seq<int>, ch: seq<Chan>, pd: seq<nat>, k: nat,
                     init: nat, nextpid: nat, exited: set<nat>, reaped: set<nat>)
    requires ParentsOk(st, pt, init) && NoMissedExit(st, pt, ch) && PidsOk(st, pd, nextpid, exited, reaped)
    requires k < NPROC && st[k] == Embryo && pt[k] == NONE
    ensures var st' := st[k := Unused];
      ParentsOk(st', pt, init) && NoMissedExit(st', pt, ch) && PidsOk(st', pd, nextpid, exited, reaped)
  {
  }

  // ---- kill --------------------------------------------------------------------------------------

  predicate FirstSlot(pd: seq<nat>, target: nat, k: int) {
    0 <= k < |pd| && pd[k] == target && forall i :: 0 <= i < k ==> pd[i] != target
  }

  /** The slot that kill finds is unused exactly when the pid is 0 or that of an embryo that was
      given back. */
  lemma KillFinds(st: seq<ProcState>, pd: seq<nat>, nextpid: nat, abandoned: set<nat>, target: nat, k: int)
    requires StaleOk(st, pd, nextpid, abandoned) && FirstSlot(pd, target, k)
    ensures st[k] == Unused <==> target == 0 || target in abandoned
  {
    assert st[k] == Unused <==> Stale(pd[k], abandoned);
  }

  /** Changes that leave the unused slots and the pids alone. */
  lemma StaleKeeps(st: seq<ProcState>, st': seq<ProcState>, pd: seq<nat>, kd: seq<bool>, nextpid: nat,
                   struck: map<nat, nat>, abandoned: set<nat>)
    requires StaleOk(st, pd, nextpid, abandoned) && MarksOk(st, pd, kd, struck, abandoned) && |st'| == |st|
    requires forall i :: 0 <= i < |st| ==> (st'[i] == Unused <==> st[i] == Unused)
    requires forall i :: 0 <= i < |st| ==> (st'[i] == Embryo ==> st[i] == Embryo)
    ensures StaleOk(st', pd, nextpid, abandoned) && MarksOk(st', pd, kd, struck, abandoned)
  {
  }

  lemma StaleAlloc(st: seq<ProcState>, pd: seq<nat>, kd: seq<bool>, nextpid: nat, struck: map<nat, nat>,
                   abandoned: set<nat>, k: nat)
    requires StaleOk(st, pd, nextpid, abandoned) && MarksOk(st, pd, kd, struck, abandoned)
    requires k < NPROC && st[k] == Unused
    ensures StaleOk(st[k := Embryo], pd[k := nextpid], nextpid + 1, abandoned)
    ensures MarksOk(st[k := Embryo], pd[k := nextpid], kd, struck, abandoned)
  {
  }

  /** The mark of an unused slot. */
  lemma NewbornMark(st: seq<ProcState>, pd: seq<nat>, kd: seq<bool>, struck: map<nat, nat>, abandoned: set<nat>, k: nat)
    requires MarksOk(st, pd, kd, struck, abandoned) && k < NPROC && st[k] == Unused
    ensures kd[k] <==> k in struck
    ensures kd[k] ==> struck[k] == 0 || struck[k] in abandoned
  {
  }

  lemma StaleAbandon(st: seq<ProcState>, pd: seq<nat>, kd: seq<bool>, nextpid: nat, struck: map<nat, nat>,
                     abandoned: set<nat>, k: nat, exited: set<nat>, reaped: set<nat>)
    requires StaleOk(st, pd, nextpid, abandoned) && MarksOk(st, pd, kd, struck, abandoned)
    requires PidsOk(st, pd, nextpid, exited, reaped) && k < NPROC && st[k] == Embryo
    ensures StaleOk(st[k := Unused], pd, nextpid, abandoned + {pd[k]})
    ensures MarksOk(st[k := Unused], pd, kd, struck, abandoned + {pd[k]})
  {
  }

  lemma StaleExit(st: seq<ProcState>, pt: seq<int>, ch: seq<Chan>, pd: seq<nat>, kd: seq<bool>, cur: nat, init: nat,
                  nextpid: nat, struck: map<nat, nat>, abandoned: set<nat>)
    requires StaleOk(st, pd, nextpid, abandoned) && MarksOk(st, pd, kd, struck, abandoned)
    requires |pt| == |ch| == NPROC && cur < NPROC && st[cur] == Running
    ensures StaleOk(Exited(st, pt, ch, cur, init), pd, nextpid, abandoned)
    ensures MarksOk(Exited(st, pt, ch, cur, init), pd, kd, struck, abandoned)
  {
    hide StaleOk, MarksOk;
    assert |st| == NPROC by { SizeOf(st, pd, nextpid, abandoned); }
    var st1 := Woken(st, ch, OnProc(pt[cur]));
    WokenStates(st, ch, OnProc(pt[cur]));
    WokenStates(st1, ch, OnProc(init));
    StaleKeeps(st, Exited(st, pt, ch, cur, init), pd, kd, nextpid, struck, abandoned);
  }

  lemma SizeOf(st: seq<ProcState>, pd: seq<nat>, nextpid: nat, abandoned: set<nat>)
    requires StaleOk(st, pd, nextpid, abandoned)
    ensures |st| == NPROC
  {
  }

  lemma StaleReap(st: seq<ProcState>, pd: seq<nat>, kd: seq<bool>, nextpid: nat, struck: map<nat, nat>,
                  abandoned: set<nat>, k: nat)
    requires StaleOk(st, pd, nextpid, abandoned) && MarksOk(st, pd, kd, struck, abandoned)
    requires k < NPROC && st[k] == Zombie
    ensures StaleOk(st[k := Unused], pd[k := 0], nextpid, abandoned)
    ensures MarksOk(st[k := Unused], pd[k := 0], kd[k := false], struck - {k}, abandoned)
  {
  }

  lemma StaleKill(st: seq<ProcState>, pd: seq<nat>, kd: seq<bool>, nextpid: nat, struck: map<nat, nat>,
                  abandoned: set<nat>, k: nat)
    requires StaleOk(st, pd, nextpid, abandoned) && MarksOk(st, pd, kd, struck, abandoned) && k < NPROC
    ensures MarksOk(st, pd, kd[k := true], struck[k := pd[k]], abandoned)
  {
    assert st[k] == Unused <==> Stale(pd[k], abandoned);
  }

  // ---- the table --------------------------------------------------------------------------------

  class Table {
    const state: array<ProcState>
    const pid: array<nat>
    const parent: array<int>
    const chan: array<Chan>
    const killed: array<bool>
    const init: nat
    var nextpid: nat
    /** The pids of all processes that ever exited, and of those that wait has returned. */
    ghost var exited: set<nat>
    ghost var reaped: set<nat>
    /** The pids of embryos that were given back, and what kill has found since; see MarksOk. */
    ghost var abandoned: set<nat>
    ghost var struck: map<nat, nat>

    ghost predicate Arrays()
      reads this
    {
      && state.Length == pid.Length == parent.Length == chan.Length == killed.Length == NPROC
      && init < NPROC
    }

    ghost predicate Valid()
      reads this, state, pid, parent, chan, killed
    {
      && Arrays() && ParentsOk(state[..], parent[..], init)
      && NoMissedExit(state[..], parent[..], chan[..])
      && PidsOk(state[..], pid[..], nextpid, exited, reaped)
      && StaleOk(state[..], pid[..], nextpid, abandoned)
      && MarksOk(state[..], pid[..], killed[..], struck, abandoned)
    }

    /** userinit: an empty table but for init. */
    constructor ()
      ensures Valid() && fresh(state) && fresh(pid) && fresh(parent) && fresh(chan) && fresh(killed)
      ensures exited == reaped == abandoned == {} && struck == map[] && init == 0 && nextpid == 2
      ensures forall i :: 0 <= i < NPROC ==> state[i] == if i == 0 then Runnable else Unused
      ensures forall i :: 0 <= i < NPROC ==> parent[i] == NONE && pid[i] == if i == 0 then 1 else 0
    {
      state, pid, parent := new ProcState[NPROC], new nat[NPROC], new int[NPROC];
      chan, killed := new Chan[NPROC], new bool[NPROC];
      init, nextpid := 0, 2;
      exited, reaped, abandoned, struck := {}, {}, {}, map[];
      new;
      forall i | 0 <= i < NPROC { state[i] := if i == 0 then Runnable else Unused; }
      forall i | 0 <= i < NPROC { pid[i] := if i == 0 then 1 else 0; }
      forall i | 0 <= i < NPROC { parent[i] := NONE; }
      forall i | 0 <= i < NPROC { chan[i] := NoChan; }
      forall i | 0 <= i < NPROC { killed[i] := false; }
    }

    method Wakeup1(c: Chan)
      requires Arrays()
      modifies state
      ensures state[..] == Woken(old(state[..]), chan[..], c)
    {
      var p := 0;
      while p < NPROC
        invariant 0 <= p <= NPROC
        invariant forall i :: 0 <= i < p ==> state[i] == Woken(old(state[..]), chan[..], c)[i]
        invariant forall i :: p <= i < NPROC ==> state[i] == old(state[i])
      {
        if state[p] == Sleeping && chan[p] == c { state[p] := Runnable; }
        p := p + 1;
      }
    }

    /** wakeup, by whichever kernel code. */
    method Wakeup(c: Chan)
      requires Valid()
      modifies state
      ensures Valid() && state[..] == Woken(old(state[..]), chan[..], c)
    {
      WokenKeeps(state[..], parent[..], chan[..], pid[..], c, init, nextpid, exited, reaped);
      WokenStates(state[..], chan[..], c);
      StaleKeeps(state[..], Woken(state[..], chan[..], c), pid[..], killed[..], nextpid, struck, abandoned);
      hide ParentsOk, NoMissedExit, PidsOk, StaleOk, MarksOk;
      Wakeup1(c);
    }

    /** allocproc's scan: the first unused slot becomes an embryo with a new pid. It leaves the
        slot's killed mark as it is: the newborn is marked exactly when kill has found the slot
        since wait last gave it back, and kill was then given pid 0 or that of an embryo that
        was given back. */
    method AllocProc() returns (r: int)
      requires Valid()
      modifies state, pid, this`nextpid
      ensures Valid() && (r == NONE || 0 <= r < NPROC)
      ensures r == NONE ==> nextpid == old(nextpid) && state[..] == old(state[..]) && pid[..] == old(pid[..])
      ensures r == NONE ==> forall i :: 0 <= i < NPROC ==> state[i] != Unused
      ensures r != NONE ==> old(state[r]) == Unused && forall i :: 0 <= i < r ==> old(state[i]) != Unused
      ensures r != NONE ==> state[..] == old(state[..])[r := Embryo] && pid[..] == old(pid[..])[r := old(nextpid)]
      ensures r != NONE ==> nextpid == old(nextpid) + 1
      ensures r != NONE ==> (killed[r] <==> old(killed[r])) && (killed[r] <==> r in struck)
      ensures r != NONE && killed[r] ==> struck[r] == 0 || struck[r] in abandoned
    {
      hide ParentsOk, NoMissedExit, PidsOk, StaleOk;
      var p := 0;
      while p < NPROC
        invariant 0 <= p <= NPROC && forall i :: 0 <= i < p ==> state[i] != Unused
        invariant Valid() && state[..] == old(state[..]) && pid[..] == old(pid[..]) && nextpid == old(nextpid)
      {
        if state[p] == Unused {
          AllocKeeps(state[..], parent[..], chan[..], pid[..], p, init, nextpid, exited, reaped);
          StaleAlloc(state[..], pid[..], killed[..], nextpid, struck, abandoned, p);
          NewbornMark(state[..], pid[..], killed[..], struck, abandoned, p);
          hide MarksOk;
          state[p] := Embryo;
          pid[p] := nextpid;
          nextpid := nextpid + 1;
          assert state[..] == old(state[..])[p := Embryo];
          return p;
        }
        p := p + 1;
      }
      return NONE;
    }

    /** allocproc and fork without memory: the embryo, not yet anybody's child, is unused again. */
    method Abandon(np: nat)
      requires Valid() && np < NPROC && state[np] == Embryo && parent[np] == NONE
      modifies state, this`abandoned
      ensures Valid() && state[..] == old(state[..])[np := Unused] && abandoned == old(abandoned) + {pid[np]}
    {
      AbandonKeeps(state[..], parent[..], chan[..], pid[..], np, init, nextpid, exited, reaped);
      StaleAbandon(state[..], pid[..], killed[..], nextpid, struck, abandoned, np, exited, reaped);
      hide ParentsOk, NoMissedExit, PidsOk, StaleOk, MarksOk;
      abandoned := abandoned + {pid[np]};
      state[np] := Unused;
      assert state[..] == old(state[..])[np := Unused];
    }

    /** np->parent = curproc, without the lock. */
    method Adopt(np: nat, cur: nat)
      requires Valid() && np < NPROC && cur < NPROC && state[np] == Embryo && state[cur] == Running
      modifies parent
      ensures Valid() && parent[..] == old(parent[..])[np := cur]
    {
      parent[np] := cur;
      assert parent[..] == old(parent[..])[np := cur];
    }

    /** A process goes from one live state to another: the end of fork (from Embryo), the
        scheduler's choice, yield, and the first thing a woken process does. */
    method SetState(p: nat, x: ProcState, c: Chan)
      requires Valid() && p < NPROC && (x == Runnable || x == Running || (x == Sleeping && c.Other?))
      requires Live(state[..], p) || (state[p] == Embryo && parent[p] != NONE)
      modifies state, chan
      ensures Valid() && state[..] == old(state[..])[p := x] && chan[..] == old(chan[..])[p := c]
    {
      hide ParentsOk, NoMissedExit, PidsOk, StaleOk, MarksOk;
      ghost var ch := chan[..][p := c];
      StaleKeeps(state[..], state[..][p := x], pid[..], killed[..], nextpid, struck, abandoned);
      StateKeeps(state[..], parent[..], chan[..], ch, pid[..], p, x, init, nextpid, exited, reaped);
      state[p] := x;
      chan[p] := c;
      assert state[..] == old(state[..])[p := x] && chan[..] == ch;
    }

    /** kill: the first slot with this pid is marked, and woken if asleep. It is an unused one
        exactly when the pid is 0 or that of an embryo that was given back. */
    method Kill(target: nat) returns (r: int, ghost k: int)
      requires Valid()
      modifies state, killed, this`struck
      ensures Valid() && (r == 0 || r == -1) && (r == 0 <==> exists i :: 0 <= i < NPROC && pid[i] == target)
      ensures r == -1 ==> state[..] == old(state[..]) && killed[..] == old(killed[..]) && struck == old(struck)
      ensures r == 0 ==> FirstSlot(pid[..], target, k) && MarkedAt(k, old(state[..]), old(killed[..]))
      ensures r == 0 ==> struck == old(struck)[k := target]
      ensures r == 0 ==> (old(state[k]) == Unused <==> target == 0 || target in abandoned)
    {
      hide ParentsOk, NoMissedExit, PidsOk, StaleOk, MarksOk;
      var p := 0;
      while p < NPROC
        invariant 0 <= p <= NPROC && forall i :: 0 <= i < p ==> pid[i] != target
        invariant Valid() && state[..] == old(state[..]) && killed[..] == old(killed[..]) && struck == old(struck)
      {
        if pid[p] == target {
          k := p;
          KillFinds(state[..], pid[..], nextpid, abandoned, target, k);
          StaleKill(state[..], pid[..], killed[..], nextpid, struck, abandoned, p);
          killed[p] := true;
          struck := struck[p := target];
          assert killed[..] == old(killed[..])[p := true];
          if state[p] == Sleeping {
            StateKeeps(state[..], parent[..], chan[..], chan[..], pid[..], p, Runnable, init, nextpid, exited, reaped);
            StaleKeeps(state[..], state[..][p := Runnable], pid[..], killed[..], nextpid, struck, abandoned);
            state[p] := Runnable;
            assert state[..] == old(state[..])[p := Runnable];
          }
          r := 0;
          return;
        }
        p := p + 1;
      }
      r, k := -1, NONE;
    }

    /** Slot k, and no other, is marked killed, and woken if it was asleep. */
    ghost predicate MarkedAt(k: int, st: seq<ProcState>, kd: seq<bool>)
      reads this, state, killed
    {
      && 0 <= k < |st| && k < |kd| && killed[..] == kd[k := true]
      && state[..] == if st[k] == Sleeping then st[k := Runnable] else st
    }

    /** exit, from the moment it holds the lock. */
    method Exit(cur: nat)
      requires Valid() && cur < NPROC && state[cur] == Running && cur != init
      modifies state, parent, this`exited
      ensures Valid() && exited == old(exited) + {pid[cur]}
      ensures parent[..] == Orphaned(old(parent[..]), cur, init)
      ensures state[..] == Exited(old(state[..]), old(parent[..]), chan[..], cur, init)
    {
      hide ParentsOk, NoMissedExit, PidsOk, StaleOk, MarksOk;
      ghost var st, pt, ch := state[..], parent[..], chan[..];
      StaleExit(st, pt, ch, pid[..], killed[..], cur, init, nextpid, struck, abandoned);
      ExitedKeeps(st, pt, ch, cur, init);
      ExitedPids(st, pt, ch, pid[..], cur, init, nextpid, exited, reaped);
      Wakeup1(OnProc(parent[cur]));
      ghost var st1 := state[..];
      WokenStates(st1, ch, OnProc(init));
      var p := 0;
      while p < NPROC
        invariant 0 <= p <= NPROC && chan[..] == ch && exited == old(exited)
        invariant forall i :: 0 <= i < p ==> parent[i] == if pt[i] == cur then init else pt[i]
        invariant forall i :: p <= i < NPROC ==> parent[i] == pt[i]
        invariant state[..] == if ZombieChild(st1, pt, cur, p) then Woken(st1, ch, OnProc(init)) else st1
      {
        ZombieNext(st1, pt, cur, p);
        if parent[p] == cur {
          parent[p] := init;
          if state[p] == Zombie {
            WokenTwice(st1, ch, OnProc(init));
            Wakeup1(OnProc(init));
          }
        }
        p := p + 1;
      }
      ghost var st2 := state[..];
      state[cur] := Zombie;
      exited := exited + {pid[cur]};
      assert pid[..][cur] == pid[cur];
      assert parent[..] == Orphaned(pt, cur, init);
      assert state[..] == st2[cur := Zombie] == Exited(st, pt, ch, cur, init);
    }

    /** One pass of wait's loop: a zombie child is reaped, or there is nothing to wait for, or
        the process goes to sleep until a child exits. */
    method Wait(cur: nat) returns (r: WaitResult)
      requires Valid() && cur < NPROC && state[cur] == Running
      modifies state, pid, parent, chan, killed, this`reaped, this`struck
      ensures Valid()
      ensures r.Reaped? <==> ZombieChild(old(state[..]), old(parent[..]), cur, NPROC)
      ensures r.Reaped? ==> r.pid in exited && r.pid !in old(reaped) && reaped == old(reaped) + {r.pid}
      ensures r.Reaped? ==> chan[..] == old(chan[..])
      ensures r.Reaped? ==> exists k ::
        ReapedAt(k, cur, r.pid, old(state[..]), old(parent[..]), old(pid[..]), old(killed[..]))
      ensures r.Failed? ==> state[..] == old(state[..]) && chan[..] == old(chan[..])
      ensures r.Asleep? ==> state[..] == old(state[..])[cur := Sleeping]
      ensures r.Asleep? ==> chan[..] == old(chan[..])[cur := OnProc(cur)]
      ensures !r.Reaped? ==> killed[..] == old(killed[..]) && struck == old(struck)
      ensures r.Failed? ==> old(killed[cur]) || forall k :: 0 <= k < NPROC ==> parent[k] != cur
      ensures r.Asleep? ==> !old(killed[cur]) && InWait(state[..], chan[..], cur)
      ensures r.Asleep? ==> exists k :: 0 <= k < NPROC && parent[k] == cur
      ensures !r.Reaped? ==> reaped == old(reaped) && parent[..] == old(parent[..]) && pid[..] == old(pid[..])
    {
      hide ParentsOk, NoMissedExit, PidsOk, StaleOk, MarksOk;
      var havekids := false;
      var p := 0;
      while p < NPROC
        invariant 0 <= p <= NPROC && Valid() && reaped == old(reaped) && chan[..] == old(chan[..])
        invariant state[..] == old(state[..]) && parent[..] == old(parent[..]) && pid[..] == old(pid[..])
        invariant killed[..] == old(killed[..]) && struck == old(struck)
        invariant havekids <==> exists k :: 0 <= k < p && parent[k] == cur
        invariant !ZombieChild(state[..], parent[..], cur, p)
      {
        ZombieNext(state[..], parent[..], cur, p);
        if parent[p] == cur {
          havekids := true;
          if state[p] == Zombie {
            ZombieLater(state[..], parent[..], cur, p + 1);
            var found := Reap(p);
            assert ReapedAt(p, cur, found, old(state[..]), old(parent[..]), old(pid[..]), old(killed[..]));
            return Reaped(found);
          }
        }
        p := p + 1;
      }
      if !havekids || killed[cur] {
        assert killed[cur] == killed[..][cur];
        return Failed;
      }
      assert killed[cur] == killed[..][cur];
      NoZombies(state[..], parent[..], cur);
      StateKeeps(state[..], parent[..], chan[..], chan[..][cur := OnProc(cur)], pid[..], cur, Sleeping,
                 init, nextpid, exited, reaped);
      StaleKeeps(state[..], state[..][cur := Sleeping], pid[..], killed[..], nextpid, struck, abandoned);
      chan[cur] := OnProc(cur);
      state[cur] := Sleeping;
      assert chan[..] == old(chan[..])[cur := OnProc(cur)] && state[..] == old(state[..])[cur := Sleeping];
      return Asleep;
    }

    /** Slot k was a zombie child of cur with pid x; it, and no other, is free again. */
    ghost predicate ReapedAt(k: int, cur: int, x: nat, st: seq<ProcState>, pt: seq<int>, pd: seq<nat>, kl: seq<bool>)
      reads this, state, parent, pid, killed
    {
      && 0 <= k < |st| == |pt| == |pd| == |kl|
      && st[k] == Zombie && pt[k] == cur && pd[k] == x && killed[..] == kl[k := false]
      && state[..] == st[k := Unused] && parent[..] == pt[k := NONE] && pid[..] == pd[k := 0]
    }

    /** A zombie's slot is given back. */
    method Reap(p: nat) returns (x: nat)
      requires Valid() && p < NPROC && state[p] == Zombie
      modifies state, pid, parent, killed, this`reaped, this`struck
      ensures Valid() && x == old(pid[p]) && killed[..] == old(killed[..])[p := false] && struck == old(struck) - {p}
      ensures state[..] == old(state[..])[p := Unused] && parent[..] == old(parent[..])[p := NONE]
      ensures pid[..] == old(pid[..])[p := 0]
      ensures x in exited && x !in old(reaped) && reaped == old(reaped) + {x}
    {
      hide ParentsOk, NoMissedExit, PidsOk, StaleOk, MarksOk;
      ReapKeeps(state[..], parent[..], chan[..], pid[..], p, init, nextpid, exited, reaped);
      StaleReap(state[..], pid[..], killed[..], nextpid, struck, abandoned, p);
      x := pid[p];
      pid[p] := 0;
      parent[p] := NONE;
      killed[p] := false;
      state[p] := Unused;
      reaped, struck := reaped + {x}, struck - {p};
      assert state[..] == old(state[..])[p := Unused] && parent[..] == old(parent[..])[p := NONE];
      assert pid[..] == old(pid[..])[p := 0] && killed[..] == old(killed[..])[p := false];
    }
  }

  lemma SecondSlot(pd: seq<nat>, target: nat, k: int)
    requires FirstSlot(pd, target, k) && |pd| > 1 && pd[0] != target && pd[1] == target
    ensures k == 1
  {
  }

  /** kill(x) marks slot 1, the first whose pid is x. */
  method KillSlotOne(t: Table, x: nat)
    requires t.Valid() && t.pid[0] != x && t.pid[1] == x && t.state[0] == Runnable
    requires t.state[1] == Unused || t.state[1] == Embryo
    modifies t.state, t.killed, t`struck
    ensures t.Valid() && t.state[..] == old(t.state[..]) && t.killed[1] && t.struck == old(t.struck)[1 := x]
  {
    hide ParentsOk, NoMissedExit, PidsOk, StaleOk, MarksOk;
    ghost var st, pd, kd := t.state[..], t.pid[..], t.killed[..];
    assert pd[0] != x && pd[1] == x && st[1] == t.state[1];
    var z;
    ghost var k;
    z, k := t.Kill(x);
    assert t.pid[..] == pd;
    SecondSlot(pd, x, k);
    assert t.killed[..] == kd[1 := true] && t.killed[1] == t.killed[..][1];
  }

  /** A birth in slot 1, the first unused one. */
  method BirthInOne(t: Table)
    requires t.Valid() && t.state[0] == Runnable && t.state[1] == Unused
    modifies t.state, t.pid, t`nextpid
    ensures t.Valid() && t.state[..] == old(t.state[..])[1 := Embryo]
    ensures t.pid[..] == old(t.pid[..])[1 := old(t.nextpid)]
    ensures t.nextpid == old(t.nextpid) + 1
  {
    hide ParentsOk, NoMissedExit, PidsOk, StaleOk, MarksOk;
    var r := t.AllocProc();
    assert r == 1;
  }

  /** kill(0) on a new table finds a free slot, whose pid is 0. */
  method KillBeforeBirth() returns (t: Table)
    ensures fresh(t) && t.Valid() && t.state[1] == Embryo && t.killed[1] && t.struck == map[1 := 0] && t.pid[1] == 2
  {
    t := new Table();
    hide ParentsOk, NoMissedExit, PidsOk, StaleOk, MarksOk;
    KillSlotOne(t, 0);
    assert t.state[..][0] == t.state[0] && t.state[..][1] == t.state[1];
    BirthInOne(t);
    assert t.state[..][1] == t.state[1];
    assert t.pid[..][1] == t.pid[1];
  }

  /** So does the pid of an embryo that fork gave back for want of memory. */
  method KillGivenBack() returns (t: Table)
    ensures fresh(t) && t.Valid() && t.state[1] == Embryo && t.killed[1] && t.struck == map[1 := 2] && t.pid[1] == 3
  {
    t := new Table();
    hide ParentsOk, NoMissedExit, PidsOk, StaleOk, MarksOk;
    BirthInOne(t);
    assert t.state[..][0] == t.state[0] && t.state[..][1] == t.state[1];
    t.Abandon(1);
    assert t.state[..][0] == t.state[0] && t.state[..][1] == t.state[1];
    assert t.pid[..][0] == t.pid[0] && t.pid[..][1] == t.pid[1];
    KillSlotOne(t, 2);
    assert t.state[..][0] == t.state[0] && t.state[..][1] == t.state[1];
    BirthInOne(t);
    assert t.state[..][1] == t.state[1] && t.pid[..][1] == t.pid[1];
  }

  /** And a kill that finds the embryo itself, before fork gives it back. */
  method KillEmbryo() returns (t: Table)
    ensures fresh(t) && t.Valid() && t.state[1] == Embryo && t.killed[1] && t.struck == map[1 := 2] && t.pid[1] == 3
  {
    t := new Table();
    hide ParentsOk, NoMissedExit, PidsOk, StaleOk, MarksOk;
    BirthInOne(t);
    assert t.state[..][0] == t.state[0] && t.state[..][1] == t.state[1];
    assert t.pid[..][0] == t.pid[0] && t.pid[..][1] == t.pid[1];
    KillSlotOne(t, 2);
    assert t.state[..][0] == t.state[0] && t.state[..][1] == t.state[1];
    t.Abandon(1);
    assert t.state[..][0] == t.state[0] && t.state[..][1] == t.state[1];
    BirthInOne(t);
    assert t.state[..][1] == t.state[1] && t.pid[..][1] == t.pid[1];
  }

  lemma ZombieNext(st: seq<ProcState>, pt: seq<int>, cur: int, n: nat)
    requires n < |st| == |pt|
    ensures ZombieChild(st, pt, cur, n + 1) <==> ZombieChild(st, pt, cur, n) || (pt[n] == cur && st[n] == Zombie)
  {
  }

  lemma ZombieLater(st: seq<ProcState>, pt: seq<int>, cur: int, n: nat)
    requires n <= |st| == |pt| && ZombieChild(st, pt, cur, n)
    ensures ZombieChild(st, pt, cur, |st|)
  {
  }

  lemma NoZombies(st: seq<ProcState>, pt: seq<int>, cur: int)
    requires |st| == |pt| && !ZombieChild(st, pt, cur, |st|)
    ensures forall i :: 0 <= i < |st| && pt[i] == cur ==> st[i] != Zombie
  {
  }

  lemma WokenTwice(st: seq<ProcState>, ch: seq<Chan>, c: Chan)
    requires |st| == |ch|
    ensures Woken(Woken(st, ch, c), ch, c) == Woken(st, ch, c)
  {
  }
}
