/** The pipe of pipe.c: a ring of PIPESIZE bytes with 32-bit counters that wrap. */
module Pipes {
  const PIPESIZE := 512
  const WRAP := 0x1_0000_0000

  type Byte = x: int | 0 <= x < 256
  type Uint = x: int | 0 <= x < WRAP

  /** The fields of struct pipe that hold data. */
  datatype Ring = Ring(data: seq<Byte>, nread: Uint, nwrite: Uint)

  predicate Empty(r: Ring) { r.nread == r.nwrite }

  /** nwrite == nread + PIPESIZE in unsigned arithmetic. */
  predicate Full(r: Ring) { r.nwrite == (r.nread + PIPESIZE) % WRAP }

  function Put(r: Ring, b: Byte): Ring
    requires |r.data| == PIPESIZE
  {
    Ring(r.data[r.nwrite % PIPESIZE := b], r.nread, (r.nwrite + 1) % WRAP)
  }

  function Next(r: Ring): Byte
    requires |r.data| == PIPESIZE
  {
    r.data[r.nread % PIPESIZE]
  }

  function Take(r: Ring): Ring { Ring(r.data, (r.nread + 1) % WRAP, r.nwrite) }

  /** The ring after all of written was put in and all of taken was taken out. */
  ghost predicate Carries(r: Ring, written: seq<Byte>, taken: nat) {
    && |r.data| == PIPESIZE && taken <= |written| <= taken + PIPESIZE
    && r.nread == taken % WRAP && r.nwrite == |written| % WRAP
    && forall k :: taken <= k < |written| ==> r.data[k % PIPESIZE] == written[k]
  }

  /** The counters tell how many bytes are in flight, however often they wrapped. */
  lemma InFlight(r: Ring, written: seq<Byte>, taken: nat)
    requires Carries(r, written, taken)
    ensures Empty(r) <==> |written| == taken
    ensures Full(r) <==> |written| == taken + PIPESIZE
    ensures (r.nwrite - r.nread) % WRAP == |written| - taken
  {
    var d := |written| - taken;
    var q, q' := taken / WRAP, |written| / WRAP;
    assert taken == q * WRAP + r.nread && |written| == q' * WRAP + r.nwrite;
    assert r.nwrite - r.nread == d - (q' - q) * WRAP;
    assert 0 <= q' - q <= 1;
  }

  /** 512 divides 2^32, so the place in the ring does not jump when a counter wraps. */
  lemma SamePlace(n: nat)
    ensures n % WRAP % PIPESIZE == n % PIPESIZE
  {
  }

  lemma WrapNext(n: nat)
    ensures (n % WRAP + 1) % WRAP == (n + 1) % WRAP
  {
  }

  lemma PutCarries(r: Ring, written: seq<Byte>, taken: nat, b: Byte)
    requires Carries(r, written, taken) && !Full(r)
    ensures Carries(Put(r, b), written + [b], taken)
  {
    InFlight(r, written, taken);
    SamePlace(|written|);
    WrapNext(|written|);
    var r', w' := Put(r, b), written + [b];
    forall k | taken <= k < |w'| ensures r'.data[k % PIPESIZE] == w'[k] {
      if k < |written| { NoClash(k, |written|); }
    }
  }

  lemma NoClash(i: nat, j: nat)
    requires i < j < i + PIPESIZE
    ensures i % PIPESIZE != j % PIPESIZE
  {
  }

  lemma TakeCarries(r: Ring, written: seq<Byte>, taken: nat)
    requires Carries(r, written, taken) && !Empty(r)
    ensures taken < |written| && Next(r) == written[taken]
    ensures Carries(Take(r), written, taken + 1)
  {
    InFlight(r, written, taken);
    SamePlace(taken);
    WrapNext(taken);
  }
}
