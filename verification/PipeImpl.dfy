/** The loops of pipe.c, working on struct pipe in place. Every byte moved is a step of a run of
    the protocol, taken by the process that holds the pipe's lock. */
module PipeImpl {
  import opened Pipes
  import opened PipeProtocol

  /** Why the loop of pipewrite stops. */
  datatype Stop = Done | Gone | RingFull

  function Onward(why: Stop, src: seq<Byte>, i: nat): Pc {
    match why
    case Done => WEnd
    case Gone => Leave
    case RingFull => WFull(src, i)
  }

  /** b goes on from a with steps of p alone. */
  ghost predicate Series(a: seq<State>, b: seq<State>, p: Pid) {
    && 0 < |a| <= |b| && b[..|a|] == a
    && forall k :: |a| - 1 <= k < |b| - 1 ==> GoesOn(b[k], b[k + 1], p)
  }

  ghost predicate GoesOn(s: State, t: State, p: Pid) {
    |s.ring.data| == PIPESIZE && Enabled(s, Go(p)) && t == DoGo(s, p)
  }

  lemma NoSteps(a: seq<State>, p: Pid)
    requires a != []
    ensures Series(a, a, p)
  {
  }

  lemma OneStep(a: seq<State>, b: seq<State>, p: Pid)
    requires IsRun(b) && Series(a, b, p) && p in b[|b| - 1].procs && Enabled(b[|b| - 1], Go(p))
    ensures |b[|b| - 1].ring.data| == PIPESIZE
    ensures var c := b + [DoGo(b[|b| - 1], p)]; IsRun(c) && Series(a, c, p)
  {
    hide Enabled, DoGo, Inv;
    RunInv(b, |b| - 1);
    InvSize(b[|b| - 1]);
    var s, c := b[|b| - 1], b + [DoGo(b[|b| - 1], p)];
    assert GoesOn(s, c[|b|], p);
    assert Do(s, Go(p)) == c[|b|];
    forall i | 0 <= i < |c| - 1 ensures IsStep(c[i], c[i + 1]) {
      if i < |b| - 1 { assert IsStep(b[i], b[i + 1]); }
    }
    assert c[..|a|] == b[..|a|];
    forall k | |a| - 1 <= k < |c| - 1 ensures GoesOn(c[k], c[k + 1], p) {
      if k < |b| - 1 { assert GoesOn(b[k], b[k + 1], p); }
    }
  }

  lemma RingAt(tr: seq<State>)
    requires tr != [] && IsRun(tr)
    ensures var s := tr[|tr| - 1]; Carries(s.ring, s.written, |s.got|) && s.got == s.written[..|s.got|]
  {
    hide IsRun;
    RunInv(tr, |tr| - 1);
  }

  class Pipe {
    const data: array<Byte>
    var nread: Uint
    var nwrite: Uint
    var readopen: bool
    var writeopen: bool
    ghost var run: seq<State>

    ghost predicate Valid()
      reads this, data
    {
      && data.Length == PIPESIZE && run != [] && IsRun(run)
      && var s := run[|run| - 1];
      s.ring == Ring(data[..], nread, nwrite) && s.readopen == readopen && s.writeopen == writeopen
    }

    ghost function Now(): State
      reads this
      requires run != []
    {
      run[|run| - 1]
    }

    /** pipealloc's initialization, for these processes. */
    constructor (ghost pids: set<Pid>)
      ensures Valid() && fresh(data) && |run| == 1 && Now().procs == map p | p in pids :: Out
    {
      data := new Byte[PIPESIZE];
      nread, nwrite, readopen, writeopen := 0, 0, true, true;
      new;
      run := [State(Lock.Free, Lock.Free, Ring(data[..], 0, 0), true, true, map p | p in pids :: Out,
                    {}, [], [], false)];
    }

    /** One test of pipewrite's loop, and one byte if it passes. None: go on. */
    method WriteOne(src: seq<Byte>, i: nat, killed: bool, ghost p: Pid) returns (stop: bool, why: Stop)
      requires Valid() && i <= |src| && p in Now().procs && Now().procs[p].WLoop?
      requires Now().procs[p].src == src && Now().procs[p].i == i && (killed <==> p in Now().killed)
      modifies this`nwrite, this`run, data
      ensures Valid() && |old(Now()).ring.data| == PIPESIZE && run == old(run) + [DoGo(old(Now()), p)]
      ensures stop <==> i == |src| || !readopen || killed || Full(old(Now()).ring)
      ensures stop ==> why == (if i == |src| then Done else if !readopen || killed then Gone else RingFull)
    {
      hide IsRun, Series;
      NoSteps(run, p);
      OneStep(run, run, p);
      ghost var next := run + [DoGo(Now(), p)];
      stop, why := true, Done;
      if i < |src| {
        if !readopen || killed {
          why := Gone;
        } else if nwrite == (nread + PIPESIZE) % WRAP {
          why := RingFull;
        } else {
          data[nwrite % PIPESIZE] := src[i];
          nwrite := (nwrite + 1) % WRAP;
          stop := false;
        }
      }
      run := next;
    }

    /** pipewrite from the moment it holds the lock until it returns or must sleep: the bytes
        src[i..i'] go in, while nobody kills the process. */
    method WriteSome(src: seq<Byte>, i: nat, killed: bool, ghost p: Pid) returns (i': nat, why: Stop)
      requires Valid() && i <= |src| && p in Now().procs && Now().procs[p].WLoop?
      requires Now().procs[p].src == src && Now().procs[p].i == i && (killed <==> p in Now().killed)
      modifies this`nwrite, this`run, data
      ensures Valid() && Series(old(run), run, p) && i <= i' <= |src|
      ensures Now().written == old(Now()).written + src[i..i'] && Now().got == old(Now()).got
      ensures why.Done? <==> i' == |src|
      ensures why.Gone? <==> i < |src| && (!readopen || killed)
      ensures why.Gone? ==> i' == i
      ensures why.RingFull? ==> |Now().written| == |Now().got| + PIPESIZE
      ensures p in Now().procs && Now().procs[p] == Onward(why, src, i')
    {
      hide IsRun, Series, Enabled, Inv, Full;
      NoSteps(run, p);
      i' := i;
      var stop := false;
      why := Done;
      ghost var s0 := Now();
      while !stop
        invariant Valid() && Series(old(run), run, p) && i <= i' <= |src| && p in Now().procs
        invariant Now().written == s0.written + src[i..i'] && Now().got == s0.got
        invariant !stop ==> Now().procs[p].WLoop? && Now().procs[p].src == src && Now().procs[p].i == i'
        invariant readopen == old(readopen) && (killed <==> p in Now().killed)
        invariant i' > i ==> readopen && !killed
        invariant stop ==> why == if i' == |src| then Done else if !readopen || killed then Gone else RingFull
        invariant stop && why.RingFull? ==> Full(Now().ring)
        invariant stop ==> Now().procs[p] == Onward(why, src, i')
        decreases |src| - i', !stop
      {
        ghost var before := run;
        GoEnabled(Now(), p);
        OneStep(old(run), before, p);
        stop, why := WriteOne(src, i', killed, p);
        if !stop {
          i' := i' + 1;
          assert src[i..i'] == src[i..i' - 1] + [src[i' - 1]];
        }
      }
      if why.RingFull? {
        RingAt(run);
        InFlight(Now().ring, Now().written, |Now().got|);
      }
    }

    /** One test of piperead's copying loop, and one byte if there is one. */
    method ReadOne(ghost n: nat, ghost p: Pid) returns (stop: bool, ch: Byte)
      requires Valid() && p in Now().procs && Now().procs[p] == RCopy(n) && n > 0
      modifies this`nread, this`run
      ensures Valid() && |old(Now()).ring.data| == PIPESIZE && run == old(run) + [DoGo(old(Now()), p)]
      ensures stop <==> Empty(old(Now()).ring)
      ensures !stop ==> ch == Pipes.Next(old(Now()).ring)
    {
      hide IsRun, Series;
      NoSteps(run, p);
      OneStep(run, run, p);
      ghost var next := run + [DoGo(Now(), p)];
      stop, ch := true, 0;
      if nread != nwrite {
        stop, ch := false, data[nread % PIPESIZE];
        nread := (nread + 1) % WRAP;
      }
      run := next;
    }

    /** piperead's copying loop: the oldest bytes, n of them or all that there are. */
    method ReadSome(n: nat, ghost p: Pid) returns (got: seq<Byte>)
      requires Valid() && p in Now().procs && Now().procs[p] == RCopy(n)
      modifies this`nread, this`run
      ensures Valid() && Series(old(run), run, p) && p in Now().procs
      ensures Now().procs[p] == if |got| == n then RCopy(0) else REnd
      ensures Now().got == old(Now()).got + got && Now().written == old(Now()).written && |got| <= n
      ensures |Now().got| <= |Now().written| && Now().got == Now().written[..|Now().got|]
      ensures |got| < n ==> Now().got == Now().written
    {
      hide IsRun, Series, Enabled, Inv, Empty, Take, Pipes.Next;
      NoSteps(run, p);
      ghost var s0 := Now();
      got := [];
      var i, stop := 0, false;
      while i < n && !stop
        invariant 0 <= i <= n && Valid() && Series(old(run), run, p) && i == |got| && p in Now().procs
        invariant Now().got == s0.got + got && Now().written == s0.written
        invariant Now().procs[p] == if stop then REnd else RCopy(n - i)
        invariant stop ==> i < n && Empty(Now().ring)
        decreases n - i, !stop
      {
        GoEnabled(Now(), p);
        OneStep(old(run), run, p);
        var ch;
        stop, ch := ReadOne(n - i, p);
        if !stop {
          got := got + [ch];
          i := i + 1;
        }
      }
      RingAt(run);
      InFlight(Now().ring, Now().written, |Now().got|);
    }
  }

  lemma GoEnabled(s: State, p: Pid)
    requires p in s.procs && (s.procs[p].WLoop? || s.procs[p].RCopy?)
    ensures Enabled(s, Go(p))
  {
  }
}
