/** The memory of exec.c: the new address space, its growth segment by segment, and what the
    failure path gives back of it. */
module ExecMemory {
  import opened PageTables
  import opened AddressSpaces

  /** The user pages of the space are those of a process of n pages. */
  ghost predicate Lower(mem: seq<Page>, t: Tables, n: nat) {
    forall v: nat :: v < USERTOP ==> (Present(Entry(mem, t, v)) <==> v < n)
  }

  /** sz after k segments, and, one step on, with the two pages for the stack. */
  function SizeAfter(ends: seq<nat>, k: nat): nat
    requires k <= |ends| + 1
    decreases k
  {
    if k == 0 then 0
    else if k > |ends| then (Up(SizeAfter(ends, k - 1)) + 2) * PGSIZE
    else if ends[k - 1] < SizeAfter(ends, k - 1) then SizeAfter(ends, k - 1)
    else ends[k - 1]
  }

  /** There is memory for the first k steps; the last step is the stack. */
  ghost predicate Fits(kmap: seq<Range>, ends: seq<nat>, pages: nat, k: nat)
    requires k <= |ends| + 1
  {
    NeedFor(kmap, Up(SizeAfter(ends, k))) <= pages
  }

  /** A first segment that ends at 0 has exec fail: allocuvm returns the size it was asked for. */
  predicate Starts(ends: seq<nat>) { ends == [] || 0 < ends[0] }

  /** Step k + 1 is reached, after a segment at least, and is the first that does not fit. */
  ghost predicate Leaks(kmap: seq<Range>, ends: seq<nat>, stop: nat, pages: nat, k: nat) {
    && 0 < k <= |ends| && k < stop && Starts(ends)
    && Fits(kmap, ends, pages, k) && !Fits(kmap, ends, pages, k + 1)
  }

  /** What exec comes to, in terms of what it is given: it succeeds exactly when nothing else
      fails and the whole space fits, and it loses pages exactly when memory runs out after a
      segment, and then all the pages of the size reached. */
  ghost predicate Foretold(kmap: seq<Range>, ends: seq<nat>, stop: nat, pages: nat, k: nat, ok: bool, lost: nat) {
    && (ok <==> stop > |ends| + 1 && Starts(ends) && Fits(kmap, ends, pages, |ends| + 1))
    && (lost > 0 <==> exists j: nat :: Leaks(kmap, ends, stop, pages, j))
    && (forall j: nat :: Leaks(kmap, ends, stop, pages, j) ==> j == k && lost == Up(SizeAfter(ends, j)))
  }

  /** exec. ends[i] is where the i-th segment ends. With stop segments done - or, for the last
      two values of stop, before or after the stack - something other than allocuvm fails. k
      steps have been done when exec fails, and lost is what freevm does not find, which is
      given the 0 that a failed allocuvm has returned for the size. */
  method Exec(vm: Vm, kmap: seq<Range>, ends: seq<nat>, stop: nat)
    returns (root: nat, sz: nat, ghost t: Tables, ghost user: map<nat, nat>, ghost k: nat, ghost lost: set<nat>)
    requires vm.Valid() && ValidKmap(kmap)
    requires forall i :: 0 <= i < |ends| ==> Up(ends[i]) + 2 <= USERTOP
    modifies vm
    ensures vm.Valid() && k <= |ends| + 1
    ensures Foretold(kmap, ends, stop, |old(vm.free)|, k, root != 0, |lost|)
    ensures root != 0 ==> SpaceOk(vm.mem, root, t, user, vm.first, vm.free) && Lower(vm.mem, t, Up(sz))
    ensures root != 0 ==> sz == (Up(SizeAfter(ends, |ends|)) + 2) * PGSIZE && stop > |ends| + 1
    ensures root != 0 ==> Took(old(vm.mem), old(vm.free), vm.mem, vm.free, t.of.Keys + user.Keys)
    ensures root != 0 ==> |vm.free| == |old(vm.free)| - NeedFor(kmap, Up(sz))
    ensures root == 0 ==> Took(old(vm.mem), old(vm.free), vm.mem, vm.free, lost)
    ensures root == 0 ==> |vm.free| == |old(vm.free)| - |lost|
    ensures root == 0 ==> |lost| == if sz == 0 then Up(SizeAfter(ends, k)) else 0
    ensures root == 0 && sz != 0 ==> stop <= |ends| + 1
  {
    hide Took, SpaceOk, Lower, FreeList, Loading, Fits, Starts, NeedFor, Foretold, SizeAfter, Up, Growing, Exact,
      KernelKeys, KernelMap, Leaks, Max;
    ghost var m0, h0, f0 := vm.mem, vm.head, vm.free;
    k, lost, user := 0, {}, map[];
    sz := 0;
    root, t := vm.SetupKvm(kmap);
    if root == 0 {
      NoKernel(kmap, ends, stop, |f0|);
      SameCount(m0, h0, f0, vm.mem, vm.head, vm.free, {}, vm.first);
      return;
    }
    LoadStart(vm, m0, f0, root, t, kmap, ends);
    ghost var ok;
    var i := 0;
    while i < |ends|
      invariant i <= |ends| && i <= stop && k == i && root != 0 && lost == {}
      invariant vm.Valid() && Loading(vm, m0, f0, root, t, user, kmap, ends, i, sz)
    {
      LoadParts(vm, m0, f0, root, t, user, kmap, ends, i, sz);
      if i == stop {
        NoLeak(kmap, ends, stop, |f0|, i);
        lost := Bad(vm, root, sz, t, user, sz, m0, h0, f0);
        root := 0;
        return;
      }
      sz, t, user, ok := Segment(vm, root, sz, ends[i], t, user, m0, f0, kmap);
      StepFits(kmap, ends, |f0|, i, sz, ok);
      if sz == 0 {
        LeakAt(kmap, ends, stop, |f0|, i);
        lost := Bad(vm, root, 0, t, user, SizeAfter(ends, i), m0, h0, f0);
        root := 0;
        return;
      }
      LoadMore(vm, m0, f0, root, t, user, kmap, ends, i, sz);
      i, k := i + 1, k + 1;
    }
    LoadParts(vm, m0, f0, root, t, user, kmap, ends, i, sz);
    if stop == |ends| {
      NoLeak(kmap, ends, stop, |f0|, i);
      lost := Bad(vm, root, sz, t, user, sz, m0, h0, f0);
      root := 0;
      return;
    }
    StackStart(vm, m0, f0, root, t, user, kmap, sz);
    sz := Up(sz) * PGSIZE;
    ghost var had := sz;
    sz, t, user, ok := Segment(vm, root, sz, sz + 2 * PGSIZE, t, user, m0, f0, kmap);
    StackFits(kmap, ends, |f0|, had, sz, ok);
    if sz == 0 {
      LeakAt(kmap, ends, stop, |f0|, i);
      lost := Bad(vm, root, 0, t, user, had, m0, h0, f0);
      root := 0;
      return;
    }
    k := k + 1;
    NoLeak(kmap, ends, stop, |f0|, k);
    if stop == |ends| + 1 {
      lost := Bad(vm, root, sz, t, user, sz, m0, h0, f0);
      root := 0;
      return;
    }
    Whole(vm, m0, f0, root, t, user, kmap, sz);
  }

  /** The space has the pages of sz, and what it has is all that has been taken. */
  ghost predicate Growing(vm: Vm, m0: seq<Page>, f0: seq<nat>, root: nat, t: Tables, user: map<nat, nat>, sz: nat)
    reads vm
  {
    && vm.Valid() && SpaceOk(vm.mem, root, t, user, vm.first, vm.free) && Lower(vm.mem, t, Up(sz))
    && Took(m0, f0, vm.mem, vm.free, t.of.Keys + user.Keys) && Up(sz) <= USERTOP && root != 0
  }

  /** Besides, its tables are the ones that this many pages need, and n0 pages were free before. */
  ghost predicate Exact(vm: Vm, n0: nat, kmap: seq<Range>, t: Tables, sz: nat)
    reads vm
  {
    t.at.Keys == KernelKeys(kmap) + Paths(0, Up(sz)) && n0 == |vm.free| + NeedFor(kmap, Up(sz))
  }

  function Max(a: nat, b: nat): nat { if a < b then b else a }

  /** One allocuvm of exec; it fails with 0 exactly when the whole space of the larger size would
      not have fitted in the pages that were free before exec, and then it has not grown. */
  method Segment(vm: Vm, root: nat, sz: nat, end: nat, ghost t: Tables, ghost user: map<nat, nat>,
                 ghost m0: seq<Page>, ghost f0: seq<nat>, ghost kmap: seq<Range>)
    returns (r: nat, ghost t': Tables, ghost user': map<nat, nat>, ghost ok: bool)
    requires Growing(vm, m0, f0, root, t, user, sz) && Exact(vm, |f0|, kmap, t, sz) && Up(end) <= USERTOP
    modifies vm
    ensures r == if end < sz then sz else if ok then end else 0
    ensures Growing(vm, m0, f0, root, t', user', if r == 0 then sz else r)
    ensures ok <==> NeedFor(kmap, Up(Max(sz, end))) <= |f0|
    ensures ok ==> Exact(vm, |f0|, kmap, t', Max(sz, end))
  {
    hide SpaceOk, FreeList, Unmapped, Conserved, Grown, NeedFor, Wanted, Paths, Added, Growing, Exact;
    SegmentStart(vm, m0, f0, root, t, user, kmap, sz, end);
    ghost var m, f := vm.mem, vm.free;
    r, t', user', ok := vm.AllocUvm(root, sz, end, t, user);
    SegmentGrown(vm, m0, f0, m, f, t, user, t', user', root, sz, end, ok);
    if ok { SegmentExact(vm, |f0|, |f|, kmap, t, t', sz, end); }
  }

  lemma SegmentStart(vm: Vm, m0: seq<Page>, f0: seq<nat>, root: nat, t: Tables, user: map<nat, nat>, kmap: seq<Range>,
                     sz: nat, end: nat)
    requires Growing(vm, m0, f0, root, t, user, sz) && Exact(vm, |f0|, kmap, t, sz) && Up(end) <= USERTOP
    ensures vm.Valid() && SpaceOk(vm.mem, root, t, user, vm.first, vm.free) && Lower(vm.mem, t, Up(sz))
    ensures Took(m0, f0, vm.mem, vm.free, t.of.Keys + user.Keys) && Up(sz) <= USERTOP && root != 0
    ensures Unmapped(vm.mem, t, Up(sz), Pages(sz, end))
    ensures t.at.Keys == KernelKeys(kmap) + Paths(0, Up(sz)) && |f0| == |vm.free| + NeedFor(kmap, Up(sz))
    ensures NeedFor(kmap, Up(Max(sz, end))) == NeedFor(kmap, Up(sz)) + Wanted(t.at.Keys, Up(sz), Pages(sz, end))
  {
    hide SpaceOk, Took, FreeList, NeedFor, Wanted, Paths, KernelKeys, Up;
    StillFree(vm.mem, t, sz, end);
    NeedEnd(kmap, t.at.Keys, sz, end);
  }

  lemma SegmentGrown(vm: Vm, m0: seq<Page>, f0: seq<nat>, m: seq<Page>, f: seq<nat>, t: Tables, user: map<nat, nat>,
                     t': Tables, user': map<nat, nat>, root: nat, sz: nat, end: nat, ok: bool)
    requires vm.Valid() && SpaceOk(m, root, t, user, vm.first, f) && Lower(m, t, Up(sz)) && root != 0
    requires Took(m0, f0, m, f, t.of.Keys + user.Keys) && Up(sz) <= USERTOP && Up(end) <= USERTOP
    requires SpaceOk(vm.mem, root, t', user', vm.first, vm.free)
    requires Conserved(m, f, t, user, vm.mem, vm.free, t', user')
    requires Grown(m, t, vm.mem, t', Up(sz), if ok then Pages(sz, end) else 0)
    ensures Growing(vm, m0, f0, root, t', user', if ok then Max(sz, end) else sz)
  {
    hide SpaceOk, Took, FreeList, Conserved, Grown, Lower;
    UpMax(sz, end);
    hide Up;
    TookTwice(m0, f0, m, f, t, user, vm.mem, vm.free, t', user', root, vm.first);
    LowerGrown(m, f, t, user, vm.mem, vm.free, t', user', root, vm.first, sz, if ok then Pages(sz, end) else 0);
  }

  lemma SegmentExact(vm: Vm, n0: nat, n: nat, kmap: seq<Range>, t: Tables, t': Tables, sz: nat, end: nat)
    requires t.at.Keys == KernelKeys(kmap) + Paths(0, Up(sz)) && n0 == n + NeedFor(kmap, Up(sz))
    requires Added(t.at.Keys, t'.at.Keys, Paths(Up(sz), Pages(sz, end)), true)
    requires |vm.free| == n - Wanted(t.at.Keys, Up(sz), Pages(sz, end))
    ensures Exact(vm, n0, kmap, t', Max(sz, end))
  {
    hide NeedFor, Wanted, Paths, KernelKeys, Up;
    NeedEnd(kmap, t.at.Keys, sz, end);
  }

  /** The label bad: freevm of a space that has the pages of had, with sz for its size. */
  method Bad(vm: Vm, root: nat, sz: nat, ghost t: Tables, ghost user: map<nat, nat>, ghost had: nat,
             ghost m0: seq<Page>, ghost h0: nat, ghost f0: seq<nat>) returns (ghost lost: set<nat>)
    requires Growing(vm, m0, f0, root, t, user, had) && (sz == 0 || sz == had)
    requires FreeList(m0, h0, f0, vm.first)
    modifies vm
    ensures vm.Valid() && Took(m0, f0, vm.mem, vm.free, lost)
    ensures |lost| == (if sz == 0 then Up(had) else 0) && |vm.free| == |f0| - |lost|
  {
    hide SpaceOk, Took, Freed, Lower, CutPages, FreeList;
    assert Up(sz) <= USERTOP;
    hide Up;
    ghost var m, f := vm.mem, vm.free;
    vm.FreeVm(root, sz, t, user);
    AllReturned(m0, f0, m, f, vm.mem, vm.free, root, t, user, vm.first, sz);
    lost := user.Keys - CutPages(user, 0, Up(sz));
    LostCount(m, root, t, user, vm.first, f, had, sz);
    SameCount(m0, h0, f0, vm.mem, vm.head, vm.free, lost, vm.first);
  }

  lemma SameCount(m0: seq<Page>, h0: nat, f0: seq<nat>, m: seq<Page>, h: nat, f: seq<nat>, ps: set<nat>, first: nat)
    requires FreeList(m0, h0, f0, first) && FreeList(m, h, f, first) && Took(m0, f0, m, f, ps)
    ensures |f0| == |f| + |ps|
  {
    ListDistinct(m0, h0, f0, first);
    ListDistinct(m, h, f, first);
    hide FreeList;
    CountPages(f0, {}, f, ps);
  }

  // ---- what fits -----------------------------------------------------------------------------------

  lemma NeedEnd(kmap: seq<Range>, have: set<Key>, sz: nat, end: nat)
    requires have == KernelKeys(kmap) + Paths(0, Up(sz))
    ensures NeedFor(kmap, Up(Max(sz, end))) == NeedFor(kmap, Up(sz)) + Wanted(have, Up(sz), Pages(sz, end))
    ensures KernelKeys(kmap) + Paths(0, Up(Max(sz, end))) == have + Paths(Up(sz), Pages(sz, end))
  {
    UpMax(sz, end);
    hide KernelKeys, Paths, Wanted, Up;
    NeedMore(kmap, have, Up(sz), Pages(sz, end));
    assert NeedFor(kmap, Up(sz)) == |have| + Up(sz);
  }

  lemma UpMax(sz: nat, end: nat)
    ensures Up(sz) + Pages(sz, end) == Up(Max(sz, end))
  {
  }

  lemma {:induction false} Larger(ends: seq<nat>, j: nat, k: nat)
    requires j <= k <= |ends| + 1
    ensures Up(SizeAfter(ends, j)) <= Up(SizeAfter(ends, k))
  {
    if j < k { Larger(ends, j, k - 1); }
  }

  lemma FitsBefore(kmap: seq<Range>, ends: seq<nat>, pages: nat, j: nat, k: nat)
    requires j <= k <= |ends| + 1 && Fits(kmap, ends, pages, k)
    ensures Fits(kmap, ends, pages, j)
  {
    Larger(ends, j, k);
    hide NeedFor, Up;
    NeedLess(kmap, Up(SizeAfter(ends, j)), Up(SizeAfter(ends, k)));
  }

  /** A failure for another reason, or none. */
  lemma NoLeak(kmap: seq<Range>, ends: seq<nat>, stop: nat, pages: nat, k: nat)
    requires k <= |ends| + 1 && Fits(kmap, ends, pages, k) && (k > 0 ==> Starts(ends))
    requires stop == k || (k == |ends| + 1 && stop >= k)
    ensures Foretold(kmap, ends, stop, pages, k, k == |ends| + 1 && stop > k, 0)
  {
    hide Fits, Starts;
    forall j: nat ensures !Leaks(kmap, ends, stop, pages, j) {
      if Leaks(kmap, ends, stop, pages, j) { FitsBefore(kmap, ends, pages, j + 1, k); }
    }
  }

  lemma NoKernel(kmap: seq<Range>, ends: seq<nat>, stop: nat, pages: nat)
    requires pages < |KernelKeys(kmap)|
    ensures Foretold(kmap, ends, stop, pages, 0, false, 0) && Up(SizeAfter(ends, 0)) == 0
  {
    NeedKernel(kmap, 0);
    hide NeedFor, Starts, KernelKeys;
    assert Up(SizeAfter(ends, 0)) == 0;
    assert !Fits(kmap, ends, pages, 0);
    forall j: nat ensures j <= |ends| + 1 ==> !Fits(kmap, ends, pages, j) {
      if j <= |ends| + 1 && Fits(kmap, ends, pages, j) { FitsBefore(kmap, ends, pages, 0, j); }
    }
    hide Fits;
    assert forall j: nat :: !Leaks(kmap, ends, stop, pages, j);
  }

  lemma UpZero(ends: seq<nat>, k: nat)
    requires k <= |ends| + 1
    ensures Up(SizeAfter(ends, 0)) == 0 && (SizeAfter(ends, k) > 0 ==> Up(SizeAfter(ends, k)) > 0)
  {
  }

  lemma LeakAt(kmap: seq<Range>, ends: seq<nat>, stop: nat, pages: nat, k: nat)
    requires k <= |ends| && k < stop && Fits(kmap, ends, pages, k) && (k > 0 ==> Starts(ends))
    requires k > 0 ==> SizeAfter(ends, k) > 0
    requires !Fits(kmap, ends, pages, k + 1) || !Starts(ends)
    ensures Foretold(kmap, ends, stop, pages, k, false, Up(SizeAfter(ends, k)))
  {
    hide Fits, Starts, Up, SizeAfter;
    UpZero(ends, k);
    if Starts(ends) && Fits(kmap, ends, pages, |ends| + 1) { FitsBefore(kmap, ends, pages, k + 1, |ends| + 1); }
    forall j: nat | Leaks(kmap, ends, stop, pages, j) ensures j == k {
      if j < k { FitsBefore(kmap, ends, pages, j + 1, k); }
      if k < j { FitsBefore(kmap, ends, pages, k + 1, j); }
    }
    assert k > 0 ==> Leaks(kmap, ends, stop, pages, k);
  }

  /** exec after i segments. */
  ghost predicate Loading(vm: Vm, m0: seq<Page>, f0: seq<nat>, root: nat, t: Tables, user: map<nat, nat>,
                          kmap: seq<Range>, ends: seq<nat>, i: nat, sz: nat)
    reads vm
  {
    && i <= |ends| && sz == SizeAfter(ends, i) && Up(sz) + 2 <= USERTOP
    && Growing(vm, m0, f0, root, t, user, sz) && Exact(vm, |f0|, kmap, t, sz)
    && Fits(kmap, ends, |f0|, i) && (i > 0 ==> Starts(ends) && sz > 0)
  }

  lemma LoadStart(vm: Vm, m0: seq<Page>, f0: seq<nat>, root: nat, t: Tables, kmap: seq<Range>, ends: seq<nat>)
    requires vm.Valid() && root != 0 && SpaceOk(vm.mem, root, t, map[], vm.first, vm.free)
    requires Took(m0, f0, vm.mem, vm.free, t.of.Keys) && t.at.Keys == KernelKeys(kmap)
    requires |vm.free| == |f0| - |KernelKeys(kmap)|
    ensures Loading(vm, m0, f0, root, t, map[], kmap, ends, 0, 0)
  {
    hide SpaceOk, Took, KernelKeys, FreeList, Lower;
    NoneLower(vm.mem, t, root, vm.first, vm.free);
    NothingLoaded(kmap, t);
  }

  lemma NothingLoaded(kmap: seq<Range>, t: Tables)
    ensures Up(0) == 0 && KernelKeys(kmap) + Paths(0, 0) == KernelKeys(kmap)
    ensures var none: map<nat, nat> := map[]; t.of.Keys + none.Keys == t.of.Keys
  {
    hide KernelKeys;
  }

  lemma LoadParts(vm: Vm, m0: seq<Page>, f0: seq<nat>, root: nat, t: Tables, user: map<nat, nat>,
                  kmap: seq<Range>, ends: seq<nat>, i: nat, sz: nat)
    requires Loading(vm, m0, f0, root, t, user, kmap, ends, i, sz)
    ensures i <= |ends| && sz == SizeAfter(ends, i) && Up(sz) + 2 <= USERTOP
    ensures Growing(vm, m0, f0, root, t, user, sz) && Exact(vm, |f0|, kmap, t, sz)
    ensures Fits(kmap, ends, |f0|, i) && (i > 0 ==> Starts(ends) && sz > 0)
    ensures (sz == 0 ==> Up(SizeAfter(ends, i)) == 0) && (i == |ends| ==> Starts(ends))
  {
    hide Growing, Exact, Fits, SizeAfter;
  }

  lemma LoadMore(vm: Vm, m0: seq<Page>, f0: seq<nat>, root: nat, t: Tables, user: map<nat, nat>,
                 kmap: seq<Range>, ends: seq<nat>, i: nat, sz: nat)
    requires i < |ends| && sz == SizeAfter(ends, i + 1) && sz > 0 && Starts(ends)
    requires Up(SizeAfter(ends, i)) + 2 <= USERTOP && Up(ends[i]) + 2 <= USERTOP
    requires Growing(vm, m0, f0, root, t, user, sz) && Exact(vm, |f0|, kmap, t, sz) && Fits(kmap, ends, |f0|, i + 1)
    ensures vm.Valid() && Loading(vm, m0, f0, root, t, user, kmap, ends, i + 1, sz)
  {
    GrowingValid(vm, m0, f0, root, t, user, sz);
    hide Growing, Exact, Fits, Starts, Up, FreeList;
  }

  lemma GrowingValid(vm: Vm, m0: seq<Page>, f0: seq<nat>, root: nat, t: Tables, user: map<nat, nat>, sz: nat)
    requires Growing(vm, m0, f0, root, t, user, sz)
    ensures vm.Valid()
  {
  }

  lemma StepFits(kmap: seq<Range>, ends: seq<nat>, pages: nat, i: nat, r: nat, ok: bool)
    requires i < |ends| && Fits(kmap, ends, pages, i) && (i > 0 ==> Starts(ends) && SizeAfter(ends, i) > 0)
    requires var sz := SizeAfter(ends, i);
      && r == (if ends[i] < sz then sz else if ok then ends[i] else 0)
      && (ok <==> NeedFor(kmap, Up(Max(sz, ends[i]))) <= pages)
    ensures ok <==> Fits(kmap, ends, pages, i + 1)
    ensures r == 0 ==> !Fits(kmap, ends, pages, i + 1) || !Starts(ends)
    ensures r != 0 ==> ok && Starts(ends) && r == SizeAfter(ends, i + 1) == Max(SizeAfter(ends, i), ends[i])
  {
    hide NeedFor, Up;
  }

  lemma StackFits(kmap: seq<Range>, ends: seq<nat>, pages: nat, sz: nat, r: nat, ok: bool)
    requires sz == Up(SizeAfter(ends, |ends|)) * PGSIZE && r == if ok then sz + 2 * PGSIZE else 0
    requires ok <==> NeedFor(kmap, Up(Max(sz, sz + 2 * PGSIZE))) <= pages
    ensures ok <==> Fits(kmap, ends, pages, |ends| + 1)
    ensures ok ==> r == SizeAfter(ends, |ends| + 1) == Max(sz, sz + 2 * PGSIZE)
  {
    hide NeedFor, Up;
  }

  lemma StackStart(vm: Vm, m0: seq<Page>, f0: seq<nat>, root: nat, t: Tables, user: map<nat, nat>, kmap: seq<Range>,
                   sz: nat)
    requires Growing(vm, m0, f0, root, t, user, sz) && Exact(vm, |f0|, kmap, t, sz)
    ensures Up(Up(sz) * PGSIZE) == Up(sz) && Up(Up(sz) * PGSIZE + 2 * PGSIZE) == Up(sz) + 2
    ensures Growing(vm, m0, f0, root, t, user, Up(sz) * PGSIZE) && Exact(vm, |f0|, kmap, t, Up(sz) * PGSIZE)
  {
    hide SpaceOk, Took, Lower, KernelKeys, Paths, NeedFor;
  }

  lemma Whole(vm: Vm, m0: seq<Page>, f0: seq<nat>, root: nat, t: Tables, user: map<nat, nat>, kmap: seq<Range>,
              sz: nat)
    requires Growing(vm, m0, f0, root, t, user, sz) && Exact(vm, |f0|, kmap, t, sz)
    ensures vm.Valid() && SpaceOk(vm.mem, root, t, user, vm.first, vm.free) && Lower(vm.mem, t, Up(sz))
    ensures Took(m0, f0, vm.mem, vm.free, t.of.Keys + user.Keys) && |vm.free| == |f0| - NeedFor(kmap, Up(sz))
  {
  }

  // ---- pages and the size --------------------------------------------------------------------------

  lemma NoneLower(mem: seq<Page>, t: Tables, root: nat, first: nat, free: seq<nat>)
    requires SpaceOk(mem, root, t, map[], first, free)
    ensures Lower(mem, t, Up(0))
  {
  }

  lemma StillFree(mem: seq<Page>, t: Tables, sz: nat, end: nat)
    requires Lower(mem, t, Up(sz)) && Up(end) <= USERTOP
    ensures Unmapped(mem, t, Up(sz), Pages(sz, end))
  {
    hide Entry;
  }

  lemma ImageThere(mem: seq<Page>, root: nat, t: Tables, user: map<nat, nat>, first: nat, free: seq<nat>, v: nat)
    requires SpaceOk(mem, root, t, user, first, free) && v < USERTOP
    ensures Image(mem, t, v).Some? <==> Present(Entry(mem, t, v))
  {
    if Present(Entry(mem, t, v)) { UserPage(mem, root, t, user, first, free, v); }
    SpaceOwned(mem, root, t, user, first, free);
  }

  lemma LowerGrown(m: seq<Page>, f: seq<nat>, t: Tables, u: map<nat, nat>, m': seq<Page>, f': seq<nat>, t': Tables,
                   u': map<nat, nat>, root: nat, first: nat, sz: nat, n: nat)
    requires SpaceOk(m, root, t, u, first, f) && SpaceOk(m', root, t', u', first, f')
    requires Lower(m, t, Up(sz)) && Grown(m, t, m', t', Up(sz), n)
    ensures Lower(m', t', Up(sz) + n)
  {
    hide SpaceOk, Entry, Up, Image;
    forall v: nat | v < USERTOP ensures Present(Entry(m', t', v)) <==> v < Up(sz) + n {
      ImageThere(m, root, t, u, first, f, v);
      ImageThere(m', root, t', u', first, f', v);
    }
  }

  ghost predicate HasPage(user: map<nat, nat>, v: nat) { exists p :: Mapped(user, p, v) }

  /** As many pages as there are places for them. */
  lemma {:induction false} PageCount(user: map<nat, nat>, n: nat)
    requires forall p :: p in user ==> user[p] < n
    requires forall v: nat :: v < n ==> HasPage(user, v)
    requires forall p, q :: p in user && q in user && user[p] == user[q] ==> p == q
    ensures |user.Keys| == n
  {
    if n == 0 {
      assert user.Keys == {};
    } else {
      assert HasPage(user, n - 1);
      var p :| Mapped(user, p, n - 1);
      var rest := user - {p};
      forall v: nat | v < n - 1 ensures HasPage(rest, v) {
        assert HasPage(user, v);
        var q :| Mapped(user, q, v);
        assert Mapped(rest, q, v);
      }
      PageCount(rest, n - 1);
      assert user.Keys == rest.Keys + {p};
    }
  }

  lemma LostCount(mem: seq<Page>, root: nat, t: Tables, user: map<nat, nat>, first: nat, free: seq<nat>, had: nat,
                  sz: nat)
    requires SpaceOk(mem, root, t, user, first, free) && Lower(mem, t, Up(had)) && Up(had) <= USERTOP
    requires sz == 0 || sz == had
    ensures |user.Keys - CutPages(user, 0, Up(sz))| == if sz == 0 then Up(had) else 0
  {
    var n := Up(had);
    SpaceUser(mem, root, t, user, first, free);
    hide SpaceOk, Entry, Present, Frame;
    forall v: nat | v < n ensures HasPage(user, v) {
      assert Mapped(user, Frame(Entry(mem, t, v)), v);
    }
    PageCount(user, n);
    var cut := CutPages(user, 0, Up(sz));
    assert Up(0) == 0;
    assert sz == 0 ==> cut == {} && user.Keys - cut == user.Keys;
    assert sz != 0 ==> user.Keys - cut == {};
  }

  // ---- a run in which a page is lost ---------------------------------------------------------------

  /** On a machine with memory for a process of one page, let all other pages be taken until there
      are just enough for that, and exec a program of two segments of a page each. */
  method LosePage(kmap: seq<Range>, first: nat, m: seq<Page>, pages: nat)
    returns (vm: Vm, ghost before: nat, ghost lost: set<nat>)
    requires ValidKmap(kmap) && 0 < first && |m| == TOP && pages == NeedFor(kmap, 1) <= TOP - first
    ensures vm.Valid() && before == pages && |lost| == 1 && |vm.free| == before - 1
  {
    hide NeedFor, ValidKmap, FreeList, Foretold, SizeAfter, Leaks;
    vm := new Vm(first, m);
    var i := 0;
    while i < TOP - first - pages
      invariant i <= TOP - first - pages && vm.Valid() && |vm.free| == TOP - first - i
    {
      var p := vm.Kalloc();
      i := i + 1;
    }
    before := |vm.free|;
    SecondLost(kmap, pages);
    var root, sz;
    ghost var t, user, k;
    root, sz, t, user, k, lost := Exec(vm, kmap, [PGSIZE, 2 * PGSIZE], 4);
    OneLost(kmap, pages, k, root != 0, |lost|);
  }

  lemma SecondLost(kmap: seq<Range>, pages: nat)
    requires pages == NeedFor(kmap, 1)
    ensures Leaks(kmap, [PGSIZE, 2 * PGSIZE], 4, pages, 1)
    ensures forall i :: 0 <= i < 2 ==> Up([PGSIZE, 2 * PGSIZE][i]) == i + 1
  {
    var ends := [PGSIZE, 2 * PGSIZE];
    assert SizeAfter(ends, 1) == PGSIZE && SizeAfter(ends, 2) == 2 * PGSIZE;
    assert Up(PGSIZE) == 1 && Up(2 * PGSIZE) == 2;
    hide KernelKeys, Paths, Up, SizeAfter;
    FewerKeys(KernelKeys(kmap) + Paths(0, 1), KernelKeys(kmap) + Paths(0, 2)) by { PathsWithin(0, 1, 2); }
  }

  lemma OneLost(kmap: seq<Range>, pages: nat, k: nat, ok: bool, lost: nat)
    requires Leaks(kmap, [PGSIZE, 2 * PGSIZE], 4, pages, 1)
    requires Foretold(kmap, [PGSIZE, 2 * PGSIZE], 4, pages, k, ok, lost)
    ensures !ok && lost == 1
  {
    var ends := [PGSIZE, 2 * PGSIZE];
    assert SizeAfter(ends, 1) == PGSIZE && Up(PGSIZE) == 1;
    hide NeedFor, Up, SizeAfter;
    if ok { FitsBefore(kmap, ends, pages, 2, 3); }
  }

  const IO_ROW := Range(0xFFFF80000, 256, 0, 2)    // the first row of kmap[]

  /** One such machine: with the first row of kmap[], eight pages are what a page of a process
      needs. */
  method LosePageOfEight(m: seq<Page>) returns (vm: Vm, ghost before: nat, ghost lost: set<nat>)
    requires |m| == TOP
    ensures vm.Valid() && before == 8 && |lost| == 1 && |vm.free| == 7
  {
    EightPages();
    hide NeedFor, FreeList;
    vm, before, lost := LosePage([IO_ROW], 1024, m, 8);
  }

  lemma EightPages()
    ensures ValidKmap([IO_ROW]) && NeedFor([IO_ROW], 1) == 8
  {
    assert [IO_ROW][..0] == [];
    OneLeaf(IO_ROW.v, 256);
    OneLeaf(0, 1);
    var a, b := 0x7FFFC00, 0x3FFFE;
    assert Path(IO_ROW.v) == {Key(0, a), Key(1, b), Key(2, 511), Key(3, 0)};
    assert Path(0) == {Key(0, 0), Key(1, 0), Key(2, 0), Key(3, 0)};
    hide Path, Paths;
    assert KernelKeys([IO_ROW]) == {Key(3, 0)} + Path(IO_ROW.v);
    assert KernelKeys([IO_ROW]) + Paths(0, 1)
        == {Key(0, a), Key(1, b), Key(2, 511), Key(3, 0), Key(0, 0), Key(1, 0), Key(2, 0)};
  }

  /** Pages under one table have their tables in common. */
  lemma {:induction false} OneLeaf(v: nat, n: nat)
    requires v % ENTRIES == 0 && 0 < n <= ENTRIES
    ensures Paths(v, n) == Path(v)
  {
    SamePath(v, n - 1);
    hide Path;
    if n > 1 { OneLeaf(v, n - 1); } else { assert Paths(v, 0) == {}; }
  }

  lemma SamePath(v: nat, i: nat)
    requires v % ENTRIES == 0 && i < ENTRIES
    ensures Path(v + i) == Path(v)
  {
    var a := v / 512;
    assert v == 512 * a && (v + i) / 512 == a;
    forall x: nat | x == v || x == v + i
      ensures KeyAt(0, x) == Key(0, a) && KeyAt(1, x) == Key(1, a / 512)
      ensures KeyAt(2, x) == Key(2, a / 512 / 512) && KeyAt(3, x) == Key(3, a / 512 / 512 / 512)
    {
      StepDown(x, a);
    }
    hide KeyAt;
  }

  lemma StepDown(x: nat, a: nat)
    requires x / 512 == a
    ensures x / 0x40000 == a / 512 && x / 0x8000000 == a / 512 / 512 && x / 0x1000000000 == a / 512 / 512 / 512
  {
    var b, c, d := a / 512, a / 512 / 512, a / 512 / 512 / 512;
    assert 512 * a <= x < 512 * a + 512;
    assert 512 * b <= a < 512 * b + 512 && 512 * c <= b < 512 * c + 512 && 512 * d <= c < 512 * d + 512;
    assert 0x40000 * b <= x < 0x40000 * b + 0x40000;
    assert 0x8000000 * c <= x < 0x8000000 * c + 0x8000000;
    assert 0x1000000000 * d <= x < 0x1000000000 * d + 0x1000000000;
  }
}
