/** The page allocator of kalloc.c and the address spaces of vm.c. Every method says which
    physical pages it takes and returns, on its failure paths too. */
module AddressSpaces {
  import opened PageTables

  // ---- the free list -------------------------------------------------------------------------

  function Head(s: seq<nat>): nat { if s == [] then 0 else s[0] }

  ghost predicate NoDup(s: seq<nat>) { forall i, j :: 0 <= i < j < |s| ==> s[i] != s[j] }

  /** head leads through the first word of each free page to the next one. */
  ghost predicate FreeList(mem: seq<Page>, head: nat, free: seq<nat>, first: nat) {
    && head == Head(free) && NoDup(free)
    && forall i :: 0 <= i < |free| ==> first <= free[i] < TOP <= |mem| && mem[free[i]][0] == Head(free[i + 1..])
  }

  lemma PopFree(mem: seq<Page>, head: nat, free: seq<nat>, first: nat)
    requires FreeList(mem, head, free, first) && free != []
    ensures first <= head < TOP <= |mem| && head !in free[1..]
    ensures FreeList(mem, mem[head][0], free[1..], first)
  {
  }

  lemma PushFree(mem: seq<Page>, head: nat, free: seq<nat>, first: nat, p: nat, junk: Page)
    requires FreeList(mem, head, free, first) && first <= p < TOP <= |mem| && p !in free && junk[0] == head
    ensures FreeList(mem[p := junk], p, [p] + free, first)
  {
  }

  lemma KeepFree(mem: seq<Page>, mem': seq<Page>, head: nat, free: seq<nat>, first: nat)
    requires FreeList(mem, head, free, first) && |mem'| == |mem|
    requires forall i :: 0 <= i < |free| && free[i] < |mem| ==> mem'[free[i]] == mem[free[i]]
    ensures FreeList(mem', head, free, first)
  {
  }

  ghost function Elems(s: seq<nat>): set<nat> { set x | x in s }

  lemma LastElem(s: seq<nat>)
    requires s != [] && NoDup(s)
    ensures var n := |s| - 1; NoDup(s[..n]) && Elems(s) == Elems(s[..n]) + {s[n]} && s[n] !in Elems(s[..n])
  {
    var n := |s| - 1;
    assert s == s[..n] + [s[n]];
    forall i | 0 <= i < n ensures s[..n][i] != s[n] { assert s[i] != s[n]; }
  }

  lemma {:induction false} ListSet(s: seq<nat>)
    requires NoDup(s)
    ensures |Elems(s)| == |s|
  {
    if s == [] {
      assert Elems(s) == {};
    } else {
      LastElem(s);
      hide NoDup, Elems;
      ListSet(s[..|s| - 1]);
    }
  }

  /** Pages that only move between the free list and a set of others are as many as before. */
  lemma CountPages(f0: seq<nat>, ps0: set<nat>, f: seq<nat>, ps: set<nat>)
    requires NoDup(f0) && NoDup(f)
    requires forall p :: p in f0 || p in ps0 <==> p in f || p in ps
    requires (forall p :: p in ps0 ==> p !in f0) && forall p :: p in ps ==> p !in f
    ensures |f0| + |ps0| == |f| + |ps|
  {
    ListSet(f0);
    ListSet(f);
    assert Elems(f0) !! ps0 && Elems(f) !! ps && Elems(f0) + ps0 == Elems(f) + ps;
    hide NoDup, Elems;
    TwoSets(Elems(f0), ps0);
    TwoSets(Elems(f), ps);
  }

  lemma TwoSets(a: set<nat>, b: set<nat>)
    requires a !! b
    ensures |a + b| == |a| + |b|
  {
  }

  // ---- what the methods promise ----------------------------------------------------------------

  /** A table tree has grown by pages from the free list; no page is lost, and no page outside
      the tree and the free list is touched. */
  ghost predicate Grew(mem: seq<Page>, free: seq<nat>, t: Tables, mem': seq<Page>, free': seq<nat>, t': Tables) {
    && |mem'| == |mem|
    && (forall k :: k in t.at ==> k in t'.at && t'.at[k] == t.at[k])
    && (forall p :: p in free' || p in t'.of <==> p in free || p in t.of)
    && (forall p :: p in free' ==> p in free)
    && (forall p: nat :: p < |mem| && p !in t.of && p !in free ==> mem'[p] == mem[p])
  }

  lemma GrewTwice(m0: seq<Page>, f0: seq<nat>, t0: Tables, m1: seq<Page>, f1: seq<nat>, t1: Tables,
                  m2: seq<Page>, f2: seq<nat>, t2: Tables)
    requires Grew(m0, f0, t0, m1, f1, t1) && Grew(m1, f1, t1, m2, f2, t2)
    ensures Grew(m0, f0, t0, m2, f2, t2)
  {
  }

  lemma GrewCount(m0: seq<Page>, f0: seq<nat>, t0: Tables, m: seq<Page>, f: seq<nat>, t: Tables, root: nat, first: nat)
    requires Grew(m0, f0, t0, m, f, t) && Owned(m0, root, t0, first, f0) && Owned(m, root, t, first, f)
    requires NoDup(f0) && NoDup(f)
    ensures |f0| + |t0.at.Keys| == |f| + |t.at.Keys|
  {
    TableCount(t0, root);
    TableCount(t, root);
    hide Tree, NoDup;
    assert forall p :: p in t0.of ==> p in t0.of.Keys;
    assert forall p :: p in t.of ==> p in t.of.Keys;
    CountPages(f0, t0.of.Keys, f, t.of.Keys);
  }

  lemma ListDistinct(mem: seq<Page>, head: nat, free: seq<nat>, first: nat)
    requires FreeList(mem, head, free, first)
    ensures NoDup(free)
  {
  }

  ghost predicate SameMap(mem: seq<Page>, t: Tables, mem': seq<Page>, t': Tables) {
    forall v: nat :: Entry(mem', t', v) == Entry(mem, t, v)
  }

  /** The pages of range have been mapped to frames in order, and nothing else has changed. */
  ghost predicate MappedRange(mem: seq<Page>, t: Tables, mem': seq<Page>, t': Tables, v: nat, n: nat, frame: nat,
                              perm: nat)
    requires perm < PGSIZE
  {
    forall x: nat :: Entry(mem', t', x) == if v <= x < v + n then Pte(frame + x - v, perm) else Entry(mem, t, x)
  }

  /** A page-table tree, as a caller of walkpgdir holds it. */
  ghost predicate Owned(mem: seq<Page>, root: nat, t: Tables, first: nat, free: seq<nat>) {
    Tree(mem, root, t) && Taken(t.of.Keys, first, free)
  }

  class Vm {
    const first: nat          // the first page after the kernel
    var mem: seq<Page>
    var head: nat
    ghost var free: seq<nat>

    ghost predicate Valid() reads this { 0 < first <= TOP == |mem| && FreeList(mem, head, free, first) }

    /** kinit: every page after the kernel is free. */
    constructor (first: nat, m: seq<Page>)
      requires 0 < first <= TOP == |m|
      ensures Valid() && this.first == first
      ensures |free| == TOP - first && forall p :: p in free <==> first <= p < TOP
    {
      this.first := first;
      mem, head, free := m, 0, [];
      new;
      var p := first;
      while p < TOP
        invariant first <= p <= TOP && Valid()
        invariant |free| == p - first && forall q :: q in free <==> first <= q < p
      {
        Kfree(p);
        p := p + 1;
      }
    }

    /** The first free page, or 0. */
    method Kalloc() returns (r: nat)
      requires Valid()
      modifies this`head, this`free
      ensures Valid()
      ensures if old(free) == [] then r == 0 && free == [] else r == old(free)[0] && free == old(free)[1..]
      ensures r != 0 ==> first <= r < TOP && r !in free && head == mem[r][0]
      ensures r != 0 ==> forall p :: p in old(free) <==> p == r || p in free
      ensures r == 0 ==> old(free) == [] && head == old(head)
    {
      r := head;
      if r != 0 {
        PopFree(mem, head, free, first);
        assert free == [r] + free[1..];
        head := mem[r][0];
        free := free[1..];
      }
    }

    /** The page is filled with junk and becomes the head of the list; no page is freed twice. */
    method Kfree(p: nat)
      requires Valid() && first <= p < TOP && p !in free
      modifies this
      ensures Valid() && free == [p] + old(free)
      ensures forall q :: q in free <==> q == p || q in old(free)
      ensures forall q: nat :: q < TOP && q != p ==> mem[q] == old(mem[q])
    {
      var junk: Page := seq(ENTRIES, _ => 0x0101010101010101);
      junk := junk[0 := head];
      PushFree(mem, head, free, first, p, junk);
      mem := mem[p := junk];
      head := p;
      free := [p] + free;
    }

    /** walkpgdir's missing level: a zeroed page under slot i of table k. */
    method NewTable(root: nat, ghost t: Tables, ghost k: Key, pg: nat, i: nat) returns (q: nat, ghost t': Tables)
      requires Valid() && Owned(mem, root, t, first, free)
      requires k in t.at && 0 < k.level && pg == t.at[k] && i < ENTRIES && Child(k, i) !in t.at
      modifies this
      ensures Valid() && Owned(mem, root, t', first, free)
      ensures Grew(old(mem), old(free), t, mem, free, t') && SameMap(old(mem), t, mem, t')
      ensures q != 0 ==> Child(k, i) in t'.at && q == t'.at[Child(k, i)]
      ensures q != 0 ==> t'.at.Keys == t.at.Keys + {Child(k, i)}
      ensures q == 0 ==> t' == t && free == [] && mem == old(mem)
    {
      hide Owned, Grew, SameMap, FreeList, AddTable, Child;
      t' := t;
      GrewNone(mem, free, t);
      ghost var m, h, f := mem, head, free;
      q := Kalloc();
      if q != 0 {
        AddTableOk(m, h, f, first, root, t, k, i);
        mem := mem[q := ZeroPage()];
        mem := mem[pg := mem[pg][i := q * PGSIZE + TABLE]];
        assert mem == LinkIn(m, pg, i, q);
        t' := AddTable(t, Child(k, i), q);
        AddKeys(t, Child(k, i), q);
      }
    }

    /** The level-0 table for virtual page v, or 0. With alloc, missing tables are made, and it
        fails exactly when there are fewer free pages than missing tables; the map is the same
        even if memory runs out half way. */
    method Walk(root: nat, v: nat, alloc: bool, ghost t: Tables) returns (pg: nat, ghost t': Tables)
      requires Valid() && Owned(mem, root, t, first, free) && v < Pow(4)
      modifies this
      ensures Valid() && Owned(mem, root, t', first, free)
      ensures Grew(old(mem), old(free), t, mem, free, t') && SameMap(old(mem), t, mem, t')
      ensures pg != 0 ==> KeyAt(0, v) in t'.at && pg == t'.at[KeyAt(0, v)]
      ensures pg == 0 ==> if alloc then free == [] else KeyAt(0, v) !in t.at
      ensures !alloc ==> t' == t && mem == old(mem) && head == old(head) && free == old(free)
      ensures alloc ==> Added(t.at.Keys, t'.at.Keys, Path(v), pg != 0)
      ensures pg == 0 ==> KeyAt(0, v) !in t'.at
      ensures alloc ==> (pg != 0 <==> Missing(Path(v), t.at.Keys) <= |old(free)|)
    {
      hide Owned, Grew, SameMap, FreeList, Entry, KeyAt, Child, PX, Link, Path, Added, Missing;
      pg, t' := root, t;
      RootKey(mem, root, t, v, first, free);
      GrewNone(mem, free, t);
      var level := 3;
      while level > 0
        invariant level <= 3 && Valid() && Owned(mem, root, t', first, free)
        invariant Grew(old(mem), old(free), t, mem, free, t') && SameMap(old(mem), t, mem, t')
        invariant KeyAt(level, v) in t'.at && pg == t'.at[KeyAt(level, v)]
        invariant !alloc ==> t' == t && mem == old(mem) && head == old(head) && free == old(free)
        invariant t'.at.Keys <= t.at.Keys + Path(v)
      {
        InPath(level - 1, v);
        var i := PX(level, v);
        WalkStep(mem, root, t', level, v, first, free);
        LevelAt(level, v);
        var w := mem[pg][i];
        if Present(w) {
          pg := Frame(w);
        } else {
          if !alloc {
            NoTable(mem, root, t, level, v, first, free);
            return 0, t;
          }
          ghost var m, f, s := mem, free, t';
          pg, t' := NewTable(root, t', KeyAt(level, v), pg, i);
          GrewTwice(old(mem), old(free), t, m, f, s, mem, free, t');
          SameTwice(old(mem), t, m, s, mem, t');
          if pg == 0 {
            NoTable(mem, root, t', level, v, first, free);
            WalkCount(old(mem), old(head), old(free), t, mem, head, free, t', root, first, v);
            return;
          }
        }
        level := level - 1;
      }
      PageNonzero(mem, root, t', KeyAt(0, v), first, free);
      WalkCount(old(mem), old(head), old(free), t, mem, head, free, t', root, first, v);
    }

    /** mappages: maps n pages from v on to the frames from frame on. The C panics on a page
        that is mapped already. When memory runs out the first done pages stay mapped. */
    method MapPages(root: nat, v: nat, n: nat, frame: nat, perm: nat, ghost t: Tables)
      returns (ok: bool, ghost t': Tables, ghost done: nat)
      requires Valid() && Owned(mem, root, t, first, free) && 0 < n && v + n <= Pow(4) && perm < PGSIZE
      requires Unmapped(mem, t, v, n)
      modifies this
      ensures Valid() && Owned(mem, root, t', first, free)
      ensures Grew(old(mem), old(free), t, mem, free, t')
      ensures done <= n && ok == (done == n) && (!ok ==> free == [])
      ensures MappedRange(old(mem), t, mem, t', v, done, frame, perm)
      ensures Added(t.at.Keys, t'.at.Keys, Paths(v, n), ok)
      ensures ok <==> Missing(Paths(v, n), t.at.Keys) <= |old(free)|
    {
      hide Owned, Grew, SameMap, FreeList, Entry, KeyAt, PX, MappedRange, Pte, Path, Paths, Added, Missing;
      var j := 0;
      t' := t;
      GrewNone(mem, free, t);
      MappedNone(mem, t, v, frame, perm);
      NoPaths(t.at.Keys, v);
      while j < n
        invariant j <= n && Valid() && Owned(mem, root, t', first, free)
        invariant Grew(old(mem), old(free), t, mem, free, t')
        invariant MappedRange(old(mem), t, mem, t', v, j, frame, perm)
        invariant Added(t.at.Keys, t'.at.Keys, Paths(v, j), true)
      {
        ghost var m, f, s := mem, free, t';
        var pg;
        pg, t' := Walk(root, v + j, true, t');
        GrewTwice(old(mem), old(free), t, m, f, s, mem, free, t');
        MappedSame(old(mem), t, m, s, mem, t', v, j, frame, perm);
        PathsNext(t.at.Keys, s.at.Keys, t'.at.Keys, v, j, n, pg != 0);
        if pg == 0 {
          MapCount(old(mem), old(head), old(free), t, mem, head, free, t', root, first, v, n, false);
          return false, t', j;
        }
        NotYet(old(mem), t, mem, t', v, n, j, frame, perm, root, first, free);
        assert !Present(mem[pg][PX(0, v + j)]);
        m, f := mem, free;
        SetOk(mem, head, free, first, root, t', v + j, Pte(frame + j, perm));
        mem := mem[pg := mem[pg][PX(0, v + j) := Pte(frame + j, perm)]];
        GrewTwice(old(mem), old(free), t, m, f, t', mem, free, t');
        MappedMore(old(mem), t, m, t', mem, v, j, frame, perm);
        j := j + 1;
      }
      ok, done := true, n;
      MapCount(old(mem), old(head), old(free), t, mem, head, free, t', root, first, v, n, true);
    }

    /** freelevel: the tables under key, each freed after the ones below it. */
    method FreeLevel(pg: nat, level: nat, ghost root: nat, ghost key: Key, ghost m0: seq<Page>, ghost t: Tables)
      requires Valid() && Tree(m0, root, t) && key in t.at && key.level == level && pg == t.at[key]
      requires key.level <= 3 && Held(mem, m0, Subtree(t, key), free, first)
      modifies this
      ensures Valid() && Freed(old(mem), old(free), mem, free, Subtree(t, key))
      decreases level
    {
      hide FreeList, Tree, Held, Freed, Subtree, Part;
      InTree(m0, root, t, key);
      FreedNone(mem, free);
      PartEnds(m0, root, t, key);
      ghost var all := Subtree(t, key);
      assert all - {} == all;
      if level > 0 {
        var i := 0;
        while i < ENTRIES
          invariant i <= ENTRIES && Valid()
          invariant Freed(old(mem), old(free), mem, free, Part(t, key, i))
          invariant Held(mem, m0, all - Part(t, key, i), free, first)
        {
          PartNext(m0, root, t, key, i);
          HeldWord(mem, m0, root, t, key, i, free, first);
          ghost var c := Child(key, i);
          if Present(mem[pg][i]) {
            ghost var m, f := mem, free;
            HeldLess(mem, m0, all - Part(t, key, i), Subtree(t, c), free, first);
            FreeLevel(Frame(mem[pg][i]), level - 1, root, c, m0, t);
            FreedTwice(old(mem), old(free), Part(t, key, i), m, f, Subtree(t, c), mem, free);
            HeldFreed(m, f, m0, all - Part(t, key, i), Subtree(t, c), mem, free, first);
            assert all - Part(t, key, i + 1) == all - Part(t, key, i) - Subtree(t, c);
          } else {
            assert Part(t, key, i + 1) == Part(t, key, i);
          }
          i := i + 1;
        }
      }
      ghost var m, f := mem, free;
      if level == 0 { assert all - {pg} == {} && all - (all - {pg}) == all; }
      HeldPage(mem, m0, all - (all - {pg}), pg, free, first);
      Kfree(pg);
      FreedOne(m, f, mem, free, pg);
      FreedTwice(old(mem), old(free), all - {pg}, m, f, {pg}, mem, free);
      assert all - {pg} + {pg} == all;
    }

    /** deallocuvm: unmaps and frees the user pages from newsz up to oldsz, those that are there. */
    method DeallocUvm(root: nat, oldsz: nat, newsz: nat, ghost t: Tables, ghost user: map<nat, nat>)
      returns (r: nat, ghost user': map<nat, nat>)
      requires Valid() && SpaceOk(mem, root, t, user, first, free) && Up(oldsz) <= USERTOP
      modifies this
      ensures r == if newsz >= oldsz then oldsz else newsz
      ensures Valid() && SpaceOk(mem, root, t, user', first, free) && user' == Cut(user, Up(newsz), Up(oldsz))
      ensures Emptied(old(mem), old(free), mem, free, t, CutPages(user, Up(newsz), Up(oldsz)))
      ensures CutMap(old(mem), mem, t, Up(newsz), Up(oldsz))
    {
      hide FreeList, SpaceOk, Emptied, CutMap, Cut, CutPages, Owned, Grew, SameMap, KeyAt, PX;
      CutNone(mem, free, t, user, Up(newsz), Up(oldsz));
      CutNone(mem, free, t, user, Up(newsz), Up(newsz));
      user' := user;
      if newsz >= oldsz { return oldsz, user'; }
      var v := Up(newsz);
      while v * PGSIZE < oldsz
        invariant Up(newsz) <= v <= Up(oldsz) && Valid() && SpaceOk(mem, root, t, user', first, free)
        invariant user' == Cut(user, Up(newsz), v)
        invariant Emptied(old(mem), old(free), mem, free, t, CutPages(user, Up(newsz), v))
        invariant CutMap(old(mem), mem, t, Up(newsz), v)
        decreases Up(oldsz) - v
      {
        SpaceOwned(mem, root, t, user', first, free);
        ghost var s, m, h, f;
        var pg;
        pg, s := Walk(root, v, false, t);
        m, h, f := mem, head, free;
        if pg != 0 { SetOk(m, h, f, first, root, t, v, 0); }
        if pg != 0 && Present(mem[pg][PX(0, v)]) {
          var p := Frame(mem[pg][PX(0, v)]);
          UserPage(m, root, t, user', first, f, v);
          Kfree(p);
          UnmapOk(m, h, f, first, root, t, user', v, mem, head, free);
          mem := mem[pg := mem[pg][PX(0, v) := 0]];
          CutMore(old(mem), old(free), m, f, mem, free, root, t, user, user', first, Up(newsz), v);
          user' := user' - {p};
        } else {
          if pg == 0 { NoEntry(m, t, v); }
          CutSkip(old(mem), old(free), m, f, root, t, user, user', first, Up(newsz), v);
        }
        v := v + 1;
      }
      r := newsz;
    }

    /** freevm: returns every table, and every user page below sz; each page once. */
    method FreeVm(root: nat, sz: nat, ghost t: Tables, ghost user: map<nat, nat>)
      requires Valid() && SpaceOk(mem, root, t, user, first, free) && Up(sz) <= USERTOP
      modifies this
      ensures Valid() && Freed(old(mem), old(free), mem, free, t.of.Keys + CutPages(user, 0, Up(sz)))
    {
      hide FreeList, SpaceOk, Emptied, CutMap, Cut, CutPages, Freed, Subtree, Held, Tree;
      ghost var ps, user' := CutPages(user, 0, Up(sz)), map[];
      var r;
      r, user' := DeallocUvm(root, sz, 0, t, user);
      WholeTree(mem, root, t, user', first, free);
      ghost var m, f := mem, free;
      FreeLevel(root, 3, root, Key(3, 0), mem, t);
      EmptiedFreed(old(mem), old(free), m, f, mem, free, t, ps);
    }

    /** setupkvm: a new tree with the kernel's mappings and the tables for them, or nothing taken,
        which is when there are fewer free pages than that. */
    method SetupKvm(kmap: seq<Range>) returns (root: nat, ghost t: Tables)
      requires Valid() && ValidKmap(kmap)
      modifies this
      ensures Valid()
      ensures root == 0 ==> Took(old(mem), old(free), mem, free, {})
      ensures root != 0 ==> SpaceOk(mem, root, t, map[], first, free) && KernelMap(mem, t, kmap)
      ensures root != 0 ==> Took(old(mem), old(free), mem, free, t.of.Keys) && t.at.Keys == KernelKeys(kmap)
      ensures root == 0 <==> |old(free)| < |KernelKeys(kmap)|
      ensures root != 0 ==> |free| == |old(free)| - |KernelKeys(kmap)|
    {
      hide FreeList, SpaceOk, Owned, Grew, Took, MappedRange, Kernel, Entry, Unmapped, Freed, CutPages, KernelKeys,
        Added, Missing, Paths;
      t := NoTables();
      ghost var m0, h0, f0 := mem, head, free;
      TookNone(mem, free);
      RootKeys(kmap);
      root := Kalloc();
      if root == 0 { return; }
      RootOk(mem, old(head), old(free), first, head, free, root);
      mem := mem[root := ZeroPage()];
      t := OneTable(root);
      assert forall x: nat :: Kernel(kmap[..0], x) == 0 by { KernelNone(kmap); }
      var i := 0;
      while i < |kmap|
        invariant i <= |kmap| && root != 0 && Valid() && Owned(mem, root, t, first, free)
        invariant Took(old(mem), old(free), mem, free, t.of.Keys)
        invariant forall x: nat :: Entry(mem, t, x) == Kernel(kmap[..i], x)
        invariant t.at.Keys == KernelKeys(kmap[..i])
      {
        ghost var m, h, f, s := mem, head, free, t;
        var ok;
        ghost var done;
        KernelFree(m, t, kmap, i);
        ok, t, done := MapPages(root, kmap[i].v, kmap[i].n, kmap[i].frame, kmap[i].perm, t);
        TookGrew(old(mem), old(free), m, f, s, mem, free, t, first, root);
        KernelRow(kmap, i, t.at.Keys, ok);
        if !ok {
          KernelShort(m0, h0, f0, m, h, f, s, root, first, kmap, i);
          KernelPart(m, s, mem, t, kmap, i, done, root, first, free);
          ghost var m1, f1 := mem, free;
          FreeVm(root, 0, t, map[]);
          assert CutPages(map[], 0, Up(0)) == {} by { NoPages(); }
          TookBack(old(mem), old(free), m1, f1, mem, free, t.of.Keys, {});
          return 0, t;
        }
        KernelMore(m, s, mem, t, kmap, i);
        i := i + 1;
      }
      assert kmap[..i] == kmap;
      KernelSpace(mem, t, kmap, root, first, free);
      TookCount(m0, h0, f0, mem, head, free, t, root, first);
    }

    /** allocuvm, for the 32-bit sizes of its callers. It fails exactly when there are fewer free
        pages than pages and missing tables wanted. A failed call leaves the address space as it
        was; the tables it has made stay in the tree. */
    method AllocUvm(root: nat, oldsz: nat, newsz: nat, ghost t: Tables, ghost user: map<nat, nat>)
      returns (r: nat, ghost t': Tables, ghost user': map<nat, nat>, ghost ok: bool)
      requires Valid() && SpaceOk(mem, root, t, user, first, free) && Up(newsz) <= USERTOP
      requires Unmapped(mem, t, Up(oldsz), Pages(oldsz, newsz))
      modifies this
      ensures r == if newsz < oldsz then oldsz else if ok then newsz else 0
      ensures Valid() && SpaceOk(mem, root, t', user', first, free)
      ensures Conserved(old(mem), old(free), t, user, mem, free, t', user')
      ensures Grown(old(mem), t, mem, t', Up(oldsz), if ok then Pages(oldsz, newsz) else 0)
      ensures !ok ==> user' == user
      ensures ok <==> Wanted(t.at.Keys, Up(oldsz), Pages(oldsz, newsz)) <= |old(free)|
      ensures ok ==> Added(t.at.Keys, t'.at.Keys, Paths(Up(oldsz), Pages(oldsz, newsz)), true)
      ensures ok ==> |user'.Keys| == |user.Keys| + Pages(oldsz, newsz)
      ensures ok ==> |free| == |old(free)| - Wanted(t.at.Keys, Up(oldsz), Pages(oldsz, newsz))
    {
      hide FreeList, SpaceOk, Grown, Conserved, Unmapped, Entry, Present, Added, Missing, Wanted, Paths, PageAdded,
        SameImages, Unused, Progress, New;
      t', user', ok := t, user, true;
      ghost var lo, n := Up(oldsz), Pages(oldsz, newsz);
      ghost var m0, h0, f0 := mem, head, free;
      NoProgress(m0, f0, t, user, lo);
      if newsz < oldsz {
        AllocDone(m0, h0, f0, t, user, mem, head, free, t', user', root, first, lo, n);
        return oldsz, t', user', ok;
      }
      var v := Up(oldsz);
      while v * PGSIZE < newsz
        invariant lo <= v <= Up(newsz) && Valid() && SpaceOk(mem, root, t', user', first, free)
        invariant Progress(m0, f0, t, user, mem, free, t', user', lo, v)
        decreases Up(newsz) - v
      {
        ghost var m, h, f, s, u := mem, head, free, t', user';
        StillUnmapped(m0, f0, t, user, m, f, s, u, lo, v, n, root, first);
        var q, mapped;
        q, mapped, t' := AddPage(root, v, ZeroPage(), 6, s, u);
        if !mapped {
          AllocShort(m0, h0, f0, t, user, m, h, f, s, u, root, first, lo, v, n);
          ProgressUndone(m0, f0, t, user, m, f, s, u, mem, t', lo, v, q, root, first);
          user' := Rollback(root, oldsz, newsz, v, q, t', u, m0, f0, t, user, Unused(q));
          return 0, t', user', false;
        }
        user' := user'[q := v];
        ProgressMore(m0, f0, t, user, m, f, s, u, mem, free, t', lo, v, q);
        v := v + 1;
      }
      AllocDone(m0, h0, f0, t, user, mem, head, free, t', user', root, first, lo, n);
      r := newsz;
    }

    /** A page with the given contents at v, where nothing is mapped: kalloc and mappages, as
        allocuvm and copyuvm call them. It fails exactly when there are fewer free pages than the
        page and the tables missing on the way to it; then q, unless it is 0, is still to be freed. */
    method AddPage(root: nat, v: nat, page: Page, perm: nat, ghost t: Tables, ghost user: map<nat, nat>)
      returns (q: nat, mapped: bool, ghost t': Tables)
      requires Valid() && SpaceOk(mem, root, t, user, first, free) && v < USERTOP && perm < PGSIZE
      requires !Present(Entry(mem, t, v))
      modifies this
      ensures Valid() && q !in user && (mapped ==> q != 0) && (q != 0 ==> first <= q < TOP)
      ensures mapped <==> Wanted(t.at.Keys, v, 1) <= |old(free)|
      ensures mapped ==> SpaceOk(mem, root, t', user[q := v], first, free)
      ensures mapped ==> Conserved(old(mem), old(free), t, user, mem, free, t', user[q := v])
      ensures mapped ==> PageAdded(old(mem), t, mem, t', v, q, perm, page)
      ensures mapped ==> Added(t.at.Keys, t'.at.Keys, Paths(v, 1), true)
      ensures !mapped ==> free == [] && SpaceOk(mem, root, t', user, first, Unused(q))
      ensures !mapped ==> Conserved(old(mem), old(free), t, user, mem, Unused(q), t', user)
      ensures !mapped ==> SameImages(old(mem), t, mem, t')
    {
      hide FreeList, SpaceOk, Owned, Grew, MappedRange, Conserved, Unmapped, Entry, Present, Pte, Added, Missing, Paths,
        Path, PageAdded, SameImages, SameMap;
      t' := t;
      ghost var m, f := mem, free;
      q := Kalloc();
      if q == 0 {
        NothingAdded(mem, free, t, user, root, first);
        return q, false, t';
      }
      ghost var f1 := free;
      TakeOk(m, head, f, f1, first, root, t, user, q, page);
      mem := mem[q := page];
      ghost var m1 := mem;
      OneUnmapped(m, t, m1, v);
      ghost var done;
      mapped, t', done := MapPages(root, v, 1, q, perm, t);
      if mapped {
        MapOk(m, f, t, user, m1, f1, mem, free, t', root, first, v, q, perm, page);
      } else {
        GiveBack(m, f, t, user, m1, f1, mem, free, t', root, first, v, q, perm, page);
        assert [q] + free == Unused(q);
      }
    }

    /** The failure paths of allocuvm, the second of which also frees the page q. */
    method Rollback(root: nat, oldsz: nat, newsz: nat, ghost v: nat, q: nat, ghost t: Tables, ghost u: map<nat, nat>,
                    ghost m0: seq<Page>, ghost f0: seq<nat>, ghost t0: Tables, ghost u0: map<nat, nat>,
                    ghost f: seq<nat>)
      returns (ghost u': map<nat, nat>)
      requires Valid() && SpaceOk(mem, root, t, u, first, f) && oldsz <= newsz && Up(newsz) <= USERTOP
      requires Up(oldsz) <= v <= Up(newsz)
      requires if q == 0 then f == free else f == [q] + free && q !in free && first <= q < TOP
      requires SpaceOk(m0, root, t0, u0, first, f0) && Unmapped(m0, t0, Up(oldsz), Pages(oldsz, newsz))
      requires Conserved(m0, f0, t0, u0, mem, f, t, u)
      requires Grown(m0, t0, mem, t, Up(oldsz), v - Up(oldsz)) && New(u0, u, Up(oldsz), v)
      modifies this
      ensures Valid() && SpaceOk(mem, root, t, u', first, free) && u' == u0
      ensures Conserved(m0, f0, t0, u0, mem, free, t, u0) && Grown(m0, t0, mem, t, Up(oldsz), 0)
    {
      hide FreeList, SpaceOk, Grown, Conserved, Unmapped, Entry, Cut, CutPages, Emptied, CutMap, New;
      ghost var m, g := mem, free;
      if q != 0 { SpaceLess(mem, root, t, u, first, f, free); }
      var r;
      r, u' := DeallocUvm(root, newsz, oldsz, t, u);
      if q != 0 {
        ghost var m1, f1 := mem, free;
        NotCut(m, root, t, u, first, f, m1, g, f1, q, Up(oldsz), Up(newsz));
        Kfree(q);
        AfterFree(m, f, g, m1, f1, mem, free, root, t, u, u', first, q, Up(oldsz), Up(newsz));
      }
      Undo(m0, f0, t0, u0, m, f, t, u, mem, free, root, first, Up(oldsz), v, Up(newsz));
    }

    /** copyuvm: the child gets the parent's pages by content, with the same flags, and the
        kernel's mappings; when there are fewer free pages than that needs it takes nothing.
        The C panics on a page of the parent that is not there. */
    method CopyUvm(root: nat, sz: nat, kmap: seq<Range>, ghost t: Tables, ghost user: map<nat, nat>)
      returns (d: nat, ghost t': Tables, ghost user': map<nat, nat>)
      requires Valid() && SpaceOk(mem, root, t, user, first, free) && Up(sz) <= USERTOP && ValidKmap(kmap)
      requires forall v: nat :: v < Up(sz) ==> Present(Entry(mem, t, v))
      modifies this
      ensures Valid() && SpaceOk(mem, root, t, user, first, free)
      ensures d == 0 <==> |old(free)| < NeedFor(kmap, Up(sz))
      ensures d != 0 ==> |free| == |old(free)| - NeedFor(kmap, Up(sz))
      ensures d == 0 ==> Took(old(mem), old(free), mem, free, {})
      ensures d != 0 ==> SpaceOk(mem, d, t', user', first, free)
      ensures d != 0 ==> Took(old(mem), old(free), mem, free, t'.of.Keys + user'.Keys)
      ensures d != 0 ==> Copied(old(mem), t, mem, t', Up(sz)) && KernelPartOf(mem, t', kmap)
      ensures d != 0 ==> t'.at.Keys == KernelKeys(kmap) + Paths(0, Up(sz)) && |user'.Keys| == Up(sz)
    {
      hide FreeList, SpaceOk, Took, Copied, KernelPartOf, Entry, Present, Flags, Frame, Pte, Copying, PageAdded,
        Conserved, KernelKeys, Paths, NeedFor, Wanted, Added, SameImages, Unused, KeyAt, PX, Owned, Grew, SameMap,
        KernelMap;
      ghost var m0, h0, f0 := mem, head, free;
      user' := map[];
      d, t' := SetupKvm(kmap);
      if d == 0 {
        NeedKernel(kmap, Up(sz));
        StillThere(m0, f0, mem, free, {}, root, t, user, first);
        return;
      }
      CopyStart(m0, f0, t, mem, t', kmap, d, first, free);
      var i := 0;
      while i * PGSIZE < sz
        invariant i <= Up(sz) && d != 0 && Valid() && SpaceOk(mem, d, t', user', first, free)
        invariant Copying(m0, f0, t, mem, free, t', user', kmap, i)
        decreases Up(sz) - i
      {
        ghost var m, h, f, s, u := mem, head, free, t', user';
        ParentThere(m0, f0, t, m, f, s, u, kmap, i, root, user, first);
        var pg;
        ghost var same;
        pg, same := Walk(root, i, false, t);
        ParentPage(m0, m, root, t, user, first, f, i, pg);
        var pa, flags := Frame(mem[pg][PX(0, i)]), Flags(mem[pg][PX(0, i)]);
        ChildFree(m0, f0, t, m, f, s, u, kmap, i, d, first);
        var q, ok;
        q, ok, t' := AddPage(d, i, mem[pa], flags, s, u);
        if !ok {
          CopyShort(m0, h0, f0, t, m, h, f, s, u, kmap, i, Up(sz), d, first);
          CopyUndone(m0, f0, t, m, f, s, u, mem, t', kmap, i, q, d, first);
          Abandon(d, sz, i, q, t', u, m0, f0);
          StillThere(m0, f0, mem, free, {}, root, t, user, first);
          return 0, t', user';
        }
        user' := user'[q := i];
        CopyMore(m0, f0, t, m, f, s, u, mem, free, t', kmap, i, q, flags, m[pa], d, first);
        i := i + 1;
      }
      CopyDone(m0, h0, f0, t, mem, head, free, t', user', kmap, i, d, first);
      StillThere(m0, f0, mem, free, t'.of.Keys + user'.Keys, root, t, user, first);
    }

    /** The label bad of copyuvm, and before it the kfree of a page that could not be mapped. */
    method Abandon(d: nat, sz: nat, ghost i: nat, q: nat, ghost t: Tables, ghost user: map<nat, nat>,
                   ghost m0: seq<Page>, ghost f0: seq<nat>)
      requires Valid() && free == [] && SpaceOk(mem, d, t, user, first, Unused(q)) && i <= Up(sz) <= USERTOP
      requires q != 0 ==> first <= q < TOP
      requires Took(m0, f0, mem, Unused(q), t.of.Keys + user.Keys) && forall p :: p in user ==> user[p] < i
      modifies this
      ensures Valid() && Took(m0, f0, mem, free, {})
    {
      hide FreeList, SpaceOk, Took, Freed;
      ghost var m, f := mem, free;
      if q != 0 {
        assert Unused(q) == [q] + free;
        SpaceLess(mem, d, t, user, first, Unused(q), free);
        Kfree(q);
        AfterGiveBack(m, f, mem, free, d, t, user, first, q, m0, f0);
      }
      m, f := mem, free;
      assert CutPages(user, 0, Up(sz)) == user.Keys;
      FreeVm(d, sz, t, user);
      assert t.of.Keys + user.Keys + {} == t.of.Keys + user.Keys;
      TookBack(m0, f0, m, f, mem, free, t.of.Keys + user.Keys, {});
    }
  }

  // ---- steps of the walk -------------------------------------------------------------------------

  lemma InTree(mem: seq<Page>, root: nat, t: Tables, k: Key)
    requires Tree(mem, root, t) && k in t.at
    ensures |mem| == TOP && 0 < t.at[k] < TOP && t.at[k] in t.of
  {
  }

  lemma AddGrows(mem: seq<Page>, root: nat, t: Tables, k: Key, i: nat, first: nat, free: seq<nat>)
    requires Owned(mem, root, t, first, free) && k in t.at && 0 < k.level && i < ENTRIES && Child(k, i) !in t.at
    requires free != [] && NoDup(free) && first <= free[0] < TOP
    ensures t.at[k] < |mem| && var m, s := LinkIn(mem, t.at[k], i, free[0]), AddTable(t, Child(k, i), free[0]);
      Grew(mem, free, t, m, free[1..], s) && Taken(s.of.Keys, first, free[1..])
  {
    hide Tree, Child, ZeroPage;
    InTree(mem, root, t, k);
    assert forall p :: p in free <==> p == free[0] || p in free[1..] by { assert free == [free[0]] + free[1..]; }
    var q := free[0];
    assert q !in free[1..];
    var m, s := LinkIn(mem, t.at[k], i, q), AddTable(t, Child(k, i), q);
    assert Taken(s.of.Keys, first, free[1..]);
    forall p: nat | p < |mem| && p !in t.of && p !in free ensures m[p] == mem[p] {
      assert p != q && p != t.at[k];
    }
    assert Child(k, i) !in t.at;
  }

  lemma AddKeys(t: Tables, c: Key, q: nat)
    ensures AddTable(t, c, q).at.Keys == t.at.Keys + {c}
  {
  }

  /** Everything NewTable promises of the state after it. */
  lemma AddTableOk(mem: seq<Page>, head: nat, free: seq<nat>, first: nat, root: nat, t: Tables, k: Key, i: nat)
    requires |mem| == TOP && 0 < first && FreeList(mem, head, free, first) && free != []
    requires Owned(mem, root, t, first, free) && k in t.at && 0 < k.level && i < ENTRIES && Child(k, i) !in t.at
    ensures 0 < t.at[k] < TOP && free[0] < TOP
    ensures var m, s := LinkIn(mem, t.at[k], i, free[0]), AddTable(t, Child(k, i), free[0]);
      && FreeList(m, mem[free[0]][0], free[1..], first) && Owned(m, root, s, first, free[1..])
      && Grew(mem, free, t, m, free[1..], s) && SameMap(mem, t, m, s)
      && Child(k, i) in s.at && s.at[Child(k, i)] == free[0]
  {
    var q := free[0];
    PopFree(mem, head, free, first);
    assert NoDup(free) && first <= q < TOP && q !in t.of by { assert q in free; }
    hide Tree, Child, Entry, FreeList, ZeroPage, NoDup, Linked;
    InTree(mem, root, t, k);
    AddGrows(mem, root, t, k, i, first, free);
    var m, s := LinkIn(mem, t.at[k], i, q), AddTable(t, Child(k, i), q);
    AddTree(mem, root, t, k, i, q);
    forall v: nat ensures Entry(m, s, v) == Entry(mem, t, v) { AddEntry(mem, root, t, k, i, q, v); }
    KeepFree(mem, m, mem[q][0], free[1..], first) by {
      hide Grew;
      forall n | 0 <= n < |free[1..]| ensures m[free[1..][n]] == mem[free[1..][n]] {
        assert free[1..][n] in free && free[1..][n] in free[1..];
      }
    }
  }

  lemma PageNonzero(mem: seq<Page>, root: nat, t: Tables, k: Key, first: nat, free: seq<nat>)
    requires Owned(mem, root, t, first, free) && k in t.at
    ensures 0 < t.at[k] < TOP
  {
  }

  lemma RootKey(mem: seq<Page>, root: nat, t: Tables, v: nat, first: nat, free: seq<nat>)
    requires Owned(mem, root, t, first, free) && v < Pow(4)
    ensures KeyAt(3, v) in t.at && t.at[KeyAt(3, v)] == root
  {
  }

  lemma GrewNone(mem: seq<Page>, free: seq<nat>, t: Tables)
    ensures Grew(mem, free, t, mem, free, t) && SameMap(mem, t, mem, t)
  {
  }

  lemma SameTwice(m0: seq<Page>, t0: Tables, m1: seq<Page>, t1: Tables, m2: seq<Page>, t2: Tables)
    requires SameMap(m0, t0, m1, t1) && SameMap(m1, t1, m2, t2)
    ensures SameMap(m0, t0, m2, t2)
  {
  }

  /** One level down: the directory entry is present exactly when the next table is there. */
  lemma WalkStep(mem: seq<Page>, root: nat, t: Tables, l: nat, v: nat, first: nat, free: seq<nat>)
    requires Owned(mem, root, t, first, free) && 0 < l <= 3 && KeyAt(l, v) in t.at
    ensures t.at[KeyAt(l, v)] < |mem| && Child(KeyAt(l, v), PX(l, v)) == KeyAt(l - 1, v)
    ensures var w := mem[t.at[KeyAt(l, v)]][PX(l, v)];
      if Present(w) then KeyAt(l - 1, v) in t.at && Frame(w) == t.at[KeyAt(l - 1, v)] else KeyAt(l - 1, v) !in t.at
  {
    hide PX, Child, KeyAt, Present, Frame;
    LevelAt(l, v);
    var k := KeyAt(l, v);
    InTree(mem, root, t, k);
    assert Linked(mem, t, k);
    hide Tree, Linked, Link;
    Descend(l, v);
    LinkedAt(mem, t, k, PX(l, v));
    LinkParts(t, KeyAt(l - 1, v));
  }

  lemma LinkParts(t: Tables, c: Key)
    ensures if c in t.at then Present(Link(t, c)) && Frame(Link(t, c)) == t.at[c] else !Present(Link(t, c))
  {
    if c in t.at {
      hide Present, Frame;
      WordParts(t.at[c], TABLE);
    }
  }

  lemma LevelAt(l: nat, v: nat)
    requires l <= 3
    ensures KeyAt(l, v).level == l
  {
  }

  lemma LinkedAt(mem: seq<Page>, t: Tables, k: Key, i: nat)
    requires 0 < k.level && k in t.at && t.at[k] < |mem| && Linked(mem, t, k) && i < ENTRIES
    ensures mem[t.at[k]][i] == Link(t, Child(k, i))
  {
  }

  lemma {:induction false} NoTable(mem: seq<Page>, root: nat, t: Tables, l: nat, v: nat, first: nat, free: seq<nat>)
    requires Owned(mem, root, t, first, free) && 0 < l <= 3 && KeyAt(l - 1, v) !in t.at
    ensures KeyAt(0, v) !in t.at
    decreases l
  {
    if l > 1 {
      assert Parent(KeyAt(l - 2, v)) == KeyAt(l - 1, v);
      NoTable(mem, root, t, l - 1, v, first, free);
    }
  }

  /** What walkpgdir has taken, and why it failed if it did. */
  lemma WalkCount(m0: seq<Page>, h0: nat, f0: seq<nat>, t0: Tables, m: seq<Page>, h: nat, f: seq<nat>, t: Tables,
                  root: nat, first: nat, v: nat)
    requires FreeList(m0, h0, f0, first) && FreeList(m, h, f, first) && Grew(m0, f0, t0, m, f, t)
    requires Owned(m0, root, t0, first, f0) && Owned(m, root, t, first, f) && t.at.Keys <= t0.at.Keys + Path(v)
    requires KeyAt(0, v) in t.at || f == []
    ensures Added(t0.at.Keys, t.at.Keys, Path(v), KeyAt(0, v) in t.at)
    ensures KeyAt(0, v) in t.at <==> Missing(Path(v), t0.at.Keys) <= |f0|
  {
    ListDistinct(m0, h0, f0, first);
    ListDistinct(m, h, f, first);
    GrewCount(m0, f0, t0, m, f, t, root, first);
    GrewKeys(m0, f0, t0, m, f, t);
    hide FreeList, Grew, Path, KeyAt;
    PathAdded(m, root, t, first, f, t0.at.Keys, v);
    hide Added;
    KeysTaken(t0.at.Keys, t.at.Keys, Path(v), KeyAt(0, v) in t.at);
  }

  lemma PathAdded(m: seq<Page>, root: nat, t: Tables, first: nat, f: seq<nat>, had: set<Key>, v: nat)
    requires Owned(m, root, t, first, f) && had <= t.at.Keys <= had + Path(v)
    ensures Added(had, t.at.Keys, Path(v), KeyAt(0, v) in t.at)
  {
    InPath(0, v);
    if KeyAt(0, v) in t.at { PathIn(t, root, v); }
  }

  /** How many of the tables wanted are not there. */
  ghost function Missing(want: set<Key>, had: set<Key>): nat { |want - had| }

  /** To the tables had, those of want have been added, all of them or not. */
  ghost predicate Added(had: set<Key>, have: set<Key>, want: set<Key>, all: bool) {
    had <= have <= had + want && (all <==> have == had + want)
  }

  lemma GrewKeys(m0: seq<Page>, f0: seq<nat>, t0: Tables, m: seq<Page>, f: seq<nat>, t: Tables)
    requires Grew(m0, f0, t0, m, f, t)
    ensures t0.at.Keys <= t.at.Keys
  {
  }

  lemma KeysTaken(had: set<Key>, have: set<Key>, want: set<Key>, all: bool)
    requires Added(had, have, want, all)
    ensures if all then |have| == |had| + Missing(want, had) else |have| < |had| + Missing(want, had)
  {
    assert had + want == had + (want - had);
    assert |had + want| == |had| + |want - had|;
    if !all { SmallerSet(have, had + want); }
  }

  lemma {:induction false} SmallerSet(a: set<Key>, b: set<Key>)
    requires a < b
    ensures |a| < |b|
  {
    assert b - a == {} ==> b <= a;
    var x :| x in b - a;
    assert b == a + {x} + (b - a - {x});
    assert |b| == |a + {x}| + |b - a - {x}|;
  }

  // ---- mapping a range ---------------------------------------------------------------------------

  lemma NoPaths(had: set<Key>, v: nat)
    ensures Added(had, had, Paths(v, 0), true)
  {
  }

  /** One page on: from the tables for j pages to those for one more, or short of them. */
  lemma PathsNext(had: set<Key>, mid: set<Key>, have: set<Key>, v: nat, j: nat, n: nat, all: bool)
    requires j < n && Added(had, mid, Paths(v, j), true) && Added(mid, have, Path(v + j), all)
    ensures if all then Added(had, have, Paths(v, j + 1), true) else Added(had, have, Paths(v, n), false)
  {
    PathsWithin(v, j + 1, n);
    hide Path;
    assert Paths(v, j + 1) == Paths(v, j) + Path(v + j);
  }

  /** What mappages has taken, and why it failed if it did. */
  lemma MapCount(m0: seq<Page>, h0: nat, f0: seq<nat>, t0: Tables, m: seq<Page>, h: nat, f: seq<nat>, t: Tables,
                 root: nat, first: nat, v: nat, n: nat, all: bool)
    requires FreeList(m0, h0, f0, first) && FreeList(m, h, f, first) && Grew(m0, f0, t0, m, f, t)
    requires Owned(m0, root, t0, first, f0) && Owned(m, root, t, first, f)
    requires Added(t0.at.Keys, t.at.Keys, Paths(v, n), all) && (!all ==> f == [])
    ensures all <==> Missing(Paths(v, n), t0.at.Keys) <= |f0|
  {
    ListDistinct(m0, h0, f0, first);
    ListDistinct(m, h, f, first);
    GrewCount(m0, f0, t0, m, f, t, root, first);
    GrewKeys(m0, f0, t0, m, f, t);
    hide FreeList, Grew, Owned, Paths;
    KeysTaken(t0.at.Keys, t.at.Keys, Paths(v, n), all);
  }

  ghost predicate Unmapped(mem: seq<Page>, t: Tables, v: nat, n: nat) {
    forall x: nat :: v <= x < v + n ==> !Present(Entry(mem, t, x))
  }

  lemma MappedNone(mem: seq<Page>, t: Tables, v: nat, frame: nat, perm: nat)
    requires perm < PGSIZE
    ensures MappedRange(mem, t, mem, t, v, 0, frame, perm)
  {
  }

  lemma MappedSame(m0: seq<Page>, t0: Tables, m: seq<Page>, s: Tables, m': seq<Page>, t': Tables,
                   v: nat, n: nat, frame: nat, perm: nat)
    requires perm < PGSIZE && MappedRange(m0, t0, m, s, v, n, frame, perm) && SameMap(m, s, m', t')
    ensures MappedRange(m0, t0, m', t', v, n, frame, perm)
  {
  }

  /** Writing one entry: everything else stays. */
  lemma SetOk(mem: seq<Page>, head: nat, free: seq<nat>, first: nat, root: nat, t: Tables, v: nat, w: nat)
    requires |mem| == TOP && FreeList(mem, head, free, first)
    requires Owned(mem, root, t, first, free) && KeyAt(0, v) in t.at
    ensures t.at[KeyAt(0, v)] < TOP && Entry(mem, t, v) == mem[t.at[KeyAt(0, v)]][PX(0, v)]
    ensures var m := mem[t.at[KeyAt(0, v)] := mem[t.at[KeyAt(0, v)]][PX(0, v) := w]];
      && m == SetEntry(mem, t, v, w)
      && FreeList(m, head, free, first) && Owned(m, root, t, first, free) && Grew(mem, free, t, m, free, t)
      && forall x: nat :: Entry(m, t, x) == if x == v then w else Entry(mem, t, x)
  {
    InTree(mem, root, t, KeyAt(0, v));
    hide Tree, KeyAt, PX;
    var m := SetEntry(mem, t, v, w);
    SetTree(mem, root, t, v, w);
    forall x: nat ensures Entry(m, t, x) == if x == v then w else Entry(mem, t, x) { SetReads(mem, root, t, v, w, x); }
    hide Entry;
    KeepFree(mem, m, head, free, first) by {
      hide FreeList;
      forall n | 0 <= n < |free| && free[n] < TOP ensures m[free[n]] == mem[free[n]] { assert free[n] in free; }
    }
  }

  lemma NotYet(m0: seq<Page>, t0: Tables, m: seq<Page>, t: Tables, v: nat, n: nat, done: nat, frame: nat, perm: nat,
               root: nat, first: nat, free: seq<nat>)
    requires perm < PGSIZE && MappedRange(m0, t0, m, t, v, done, frame, perm) && Unmapped(m0, t0, v, n) && done < n
    requires Owned(m, root, t, first, free) && KeyAt(0, v + done) in t.at
    ensures t.at[KeyAt(0, v + done)] < |m| && !Present(m[t.at[KeyAt(0, v + done)]][PX(0, v + done)])
  {
    assert !Present(Entry(m0, t0, v + done));
    assert Entry(m, t, v + done) == Entry(m0, t0, v + done);
    hide KeyAt, PX, MappedRange;
    InTree(m, root, t, KeyAt(0, v + done));
  }

  lemma MappedMore(m0: seq<Page>, t0: Tables, m: seq<Page>, t: Tables, m': seq<Page>,
                   v: nat, n: nat, frame: nat, perm: nat)
    requires perm < PGSIZE && MappedRange(m0, t0, m, t, v, n, frame, perm)
    requires forall x: nat :: Entry(m', t, x) == if x == v + n then Pte(frame + n, perm) else Entry(m, t, x)
    ensures MappedRange(m0, t0, m', t, v, n + 1, frame, perm)
  {
  }

  // ---- freeing a tree ----------------------------------------------------------------------------

  /** The pages of ps have become free, and no page in use has changed. */
  ghost predicate Freed(mem: seq<Page>, free: seq<nat>, mem': seq<Page>, free': seq<nat>, ps: set<nat>) {
    && |mem'| == |mem|
    && (forall p :: p in free' <==> p in free || p in ps)
    && (forall p: nat :: p < |mem| && p !in free' ==> mem'[p] == mem[p])
  }

  /** Tables at or below c. */
  ghost function Subtree(t: Tables, c: Key): set<nat>
    requires c.level <= 3
  {
    set p | p in t.of && t.of[p].level <= 3 && Below(t.of[p], c)
  }

  /** Tables reached through the first n slots of c. */
  ghost function Part(t: Tables, c: Key, n: nat): set<nat>
    requires c.level <= 3
  {
    set p | p in t.of && t.of[p].level < c.level && Below(t.of[p], c) && Via(t.of[p], c) < n
  }

  /** Pages that are as in m0, and can be freed. */
  ghost predicate Held(mem: seq<Page>, m0: seq<Page>, ps: set<nat>, free: seq<nat>, first: nat) {
    |mem| == |m0| == TOP && forall p :: p in ps ==> first <= p < TOP && p !in free && mem[p] == m0[p]
  }

  lemma FreedNone(mem: seq<Page>, free: seq<nat>)
    ensures Freed(mem, free, mem, free, {})
  {
  }

  lemma FreedOne(mem: seq<Page>, free: seq<nat>, mem': seq<Page>, free': seq<nat>, p: nat)
    requires |mem'| == |mem| == TOP && forall q :: q in free' <==> q == p || q in free
    requires forall q: nat :: q < TOP && q != p ==> mem'[q] == mem[q]
    ensures Freed(mem, free, mem', free', {p})
  {
  }

  lemma FreedTwice(m0: seq<Page>, f0: seq<nat>, ps: set<nat>, m: seq<Page>, f: seq<nat>, qs: set<nat>,
                   m': seq<Page>, f': seq<nat>)
    requires Freed(m0, f0, m, f, ps) && Freed(m, f, m', f', qs)
    ensures Freed(m0, f0, m', f', ps + qs)
  {
  }

  lemma HeldLess(mem: seq<Page>, m0: seq<Page>, ps: set<nat>, qs: set<nat>, free: seq<nat>, first: nat)
    requires Held(mem, m0, ps, free, first) && qs <= ps
    ensures Held(mem, m0, qs, free, first)
  {
  }

  lemma HeldFreed(m: seq<Page>, f: seq<nat>, m0: seq<Page>, ps: set<nat>, qs: set<nat>, m': seq<Page>, f': seq<nat>,
                  first: nat)
    requires Held(m, m0, ps, f, first) && Freed(m, f, m', f', qs)
    ensures Held(m', m0, ps - qs, f', first)
  {
  }

  lemma HeldPage(mem: seq<Page>, m0: seq<Page>, ps: set<nat>, p: nat, free: seq<nat>, first: nat)
    requires Held(mem, m0, ps, free, first) && p in ps
    ensures first <= p < TOP && p !in free
  {
  }

  /** The directory being freed still says which tables are under it. */
  lemma HeldWord(mem: seq<Page>, m0: seq<Page>, root: nat, t: Tables, c: Key, i: nat, free: seq<nat>, first: nat)
    requires Tree(m0, root, t) && c in t.at && 0 < c.level <= 3 && i < ENTRIES
    requires t.at[c] in Subtree(t, c) - Part(t, c, i)
    requires Held(mem, m0, Subtree(t, c) - Part(t, c, i), free, first)
    ensures t.at[c] < |mem| && var w := mem[t.at[c]][i];
      if Present(w) then Child(c, i) in t.at && Frame(w) == t.at[Child(c, i)] else Child(c, i) !in t.at
  {
    hide Subtree, Part;
    assert mem[t.at[c]] == m0[t.at[c]];
    assert Linked(m0, t, c);
    hide Linked, Tree;
    LinkedAt(m0, t, c, i);
  }

  /** Nothing is reached through no slots; through all of them, all but the table itself. */
  lemma PartEnds(mem: seq<Page>, root: nat, t: Tables, c: Key)
    requires Tree(mem, root, t) && c in t.at && c.level <= 3
    ensures Part(t, c, 0) == {} && Part(t, c, ENTRIES) == Subtree(t, c) - {t.at[c]} && t.at[c] in Subtree(t, c)
    ensures c.level == 0 ==> Subtree(t, c) == {t.at[c]}
    ensures forall i: nat :: t.at[c] !in Part(t, c, i)
  {
    hide Tree, Below, Via;
    PlacedIn(mem, root, t);
    BelowSame(c, c);
    forall p | p in Subtree(t, c) && t.of[p].level == c.level ensures t.of[p] == c { BelowSame(t.of[p], c); }
    forall p | p in Subtree(t, c) ensures t.of[p].level <= c.level { BelowLevel(t.of[p], c); }
  }

  lemma BelowLevel(k: Key, c: Key)
    requires k.level <= 3 && c.level <= 3 && Below(k, c)
    ensures k.level <= c.level
  {
  }

  lemma PlacedIn(mem: seq<Page>, root: nat, t: Tables)
    requires Tree(mem, root, t)
    ensures |mem| == TOP && Placed(t, root)
  {
  }

  /** One slot more: the tables under that slot, none of which was reached before. */
  lemma PartNext(mem: seq<Page>, root: nat, t: Tables, c: Key, i: nat)
    requires Tree(mem, root, t) && c in t.at && 0 < c.level <= 3 && i < ENTRIES
    ensures Part(t, c, i + 1) == Part(t, c, i) + Subtree(t, Child(c, i)) && Part(t, c, i) !! Subtree(t, Child(c, i))
    ensures Subtree(t, Child(c, i)) <= Subtree(t, c) - Part(t, c, i)
    ensures Child(c, i) !in t.at ==> Subtree(t, Child(c, i)) == {}
  {
    hide Tree, Part, Subtree;
    forall p: nat
      ensures p in Part(t, c, i + 1) <==> p in Part(t, c, i) || p in Subtree(t, Child(c, i))
      ensures p in Subtree(t, Child(c, i)) ==> p in Subtree(t, c) && p !in Part(t, c, i) && Child(c, i) in t.at
    {
      PartAt(mem, root, t, c, i, p);
    }
  }

  lemma PartAt(mem: seq<Page>, root: nat, t: Tables, c: Key, i: nat, p: nat)
    requires Tree(mem, root, t) && c in t.at && 0 < c.level <= 3 && i < ENTRIES
    ensures p in Part(t, c, i + 1) <==> p in Part(t, c, i) || p in Subtree(t, Child(c, i))
    ensures p in Subtree(t, Child(c, i)) ==> p in Subtree(t, c) && p !in Part(t, c, i) && Child(c, i) in t.at
  {
    PlacedIn(mem, root, t);
    hide Tree, Below, Via, Placed;
    if p in t.of && t.of[p].level <= 3 { BelowVia(t, root, t.of[p], c, i); }
  }

  lemma BelowVia(t: Tables, root: nat, k: Key, c: Key, i: nat)
    requires Placed(t, root) && 0 < c.level <= 3 && i < ENTRIES && k.level <= 3 && k in t.of.Values
    ensures Below(k, Child(c, i)) <==> Below(k, c) && k.level < c.level && Via(k, c) == i
    ensures Below(k, Child(c, i)) ==> Child(c, i) in t.at
  {
    BelowChild(k, c, i);
    if k.level == c.level { BelowSame(k, c); }
    if Below(k, Child(c, i)) {
      var p :| p in t.of && t.of[p] == k;
      AncestorIn(t, root, k, Child(c, i));
    }
  }

  // ---- unmapping user pages ----------------------------------------------------------------------

  /** PGROUNDUP(sz) / PGSIZE */
  function Up(sz: nat): nat { (sz + PGSIZE - 1) / PGSIZE }

  ghost function CutPages(user: map<nat, nat>, lo: nat, hi: nat): set<nat> { set p | p in user && lo <= user[p] < hi }

  ghost function Cut(user: map<nat, nat>, lo: nat, hi: nat): map<nat, nat> {
    map p | p in user && !(lo <= user[p] < hi) :: user[p]
  }

  /** The pages of ps have become free, and otherwise only the tables may have changed. */
  ghost predicate Emptied(mem: seq<Page>, free: seq<nat>, mem': seq<Page>, free': seq<nat>, t: Tables, ps: set<nat>) {
    && |mem'| == |mem|
    && (forall p :: p in free' <==> p in free || p in ps)
    && (forall p: nat :: p < |mem| && p !in free' && p !in t.of ==> mem'[p] == mem[p])
  }

  ghost predicate CutMap(mem: seq<Page>, mem': seq<Page>, t: Tables, lo: nat, hi: nat) {
    forall v: nat :: Entry(mem', t, v) == if lo <= v < hi && Present(Entry(mem, t, v)) then 0 else Entry(mem, t, v)
  }

  lemma CutNone(mem: seq<Page>, free: seq<nat>, t: Tables, user: map<nat, nat>, lo: nat, hi: nat)
    ensures hi <= lo ==> Cut(user, lo, hi) == user && CutPages(user, lo, hi) == {} && CutMap(mem, mem, t, lo, hi)
    ensures hi <= lo ==> Emptied(mem, free, mem, free, t, CutPages(user, lo, hi))
  {
  }

  lemma SpaceOwned(mem: seq<Page>, root: nat, t: Tables, user: map<nat, nat>, first: nat, free: seq<nat>)
    requires SpaceOk(mem, root, t, user, first, free)
    ensures |mem| == TOP && Owned(mem, root, t, first, free)
  {
  }

  lemma NoEntry(mem: seq<Page>, t: Tables, v: nat)
    ensures KeyAt(0, v) !in t.at ==> Entry(mem, t, v) == 0
  {
  }

  /** A present user entry names a page of its own. */
  lemma UserPage(mem: seq<Page>, root: nat, t: Tables, user: map<nat, nat>, first: nat, free: seq<nat>, v: nat)
    requires SpaceOk(mem, root, t, user, first, free) && v < USERTOP && Present(Entry(mem, t, v))
    ensures var p := Frame(Entry(mem, t, v));
      p in user && user[p] == v && first <= p < TOP && p !in free && p !in t.of
  {
  }

  /** Freeing the page and clearing its entry keeps the address space in order. */
  lemma UnmapOk(mem: seq<Page>, head: nat, free: seq<nat>, first: nat, root: nat, t: Tables, user: map<nat, nat>,
                v: nat, mem': seq<Page>, head': nat, free': seq<nat>)
    requires SpaceOk(mem, root, t, user, first, free) && v < USERTOP && Present(Entry(mem, t, v)) && KeyAt(0, v) in t.at
    requires |mem'| == TOP && FreeList(mem', head', free', first) && free' == [Frame(Entry(mem, t, v))] + free
    requires forall q: nat :: q < TOP && q != Frame(Entry(mem, t, v)) ==> mem'[q] == mem[q]
    ensures t.at[KeyAt(0, v)] < TOP
    ensures var p, m := Frame(Entry(mem, t, v)), SetEntry(mem', t, v, 0);
      && m == mem'[t.at[KeyAt(0, v)] := mem'[t.at[KeyAt(0, v)]][PX(0, v) := 0]]
      && FreeList(m, head', free', first) && SpaceOk(m, root, t, user - {p}, first, free')
      && (forall x: nat :: Entry(m, t, x) == if x == v then 0 else Entry(mem, t, x))
      && (forall q: nat :: q < TOP && q != p && q !in t.of ==> m[q] == mem[q])
  {
    var p, m := Frame(Entry(mem, t, v)), SetEntry(mem', t, v, 0);
    UserPage(mem, root, t, user, first, free, v);
    UnmapOwned(mem, root, t, user, first, free, mem', free', p);
    hide Tree, Entry, Frame, Present, FreeList, KeyAt, PX, Owned, SpaceOk, Grew;
    SetOk(mem', head', free', first, root, t, v, 0);
    assert forall q: nat :: q < TOP && q != p && q !in t.of ==> m[q] == mem[q] by {
      InTree(mem', root, t, KeyAt(0, v)) by { OwnedTree(mem', root, t, first, free'); }
    }
    hide SetEntry;
    UnmapUser(mem, t, user, v, m) by { SpaceUser(mem, root, t, user, first, free); }
    UnmapSpace(mem, root, t, user, first, free, m, free', p);
  }

  lemma OwnedTree(mem: seq<Page>, root: nat, t: Tables, first: nat, free: seq<nat>)
    requires Owned(mem, root, t, first, free)
    ensures Tree(mem, root, t)
  {
  }

  lemma SpaceUser(mem: seq<Page>, root: nat, t: Tables, user: map<nat, nat>, first: nat, free: seq<nat>)
    requires SpaceOk(mem, root, t, user, first, free)
    ensures |mem| == TOP && User(mem, t, user)
  {
  }

  /** The tree is untouched by the page p's becoming free. */
  lemma UnmapOwned(mem: seq<Page>, root: nat, t: Tables, user: map<nat, nat>, first: nat, free: seq<nat>,
                   mem': seq<Page>, free': seq<nat>, p: nat)
    requires SpaceOk(mem, root, t, user, first, free) && p !in t.of && free' == [p] + free
    requires |mem'| == TOP && forall q: nat :: q < TOP && q != p ==> mem'[q] == mem[q]
    ensures Owned(mem', root, t, first, free') && forall x: nat :: Entry(mem', t, x) == Entry(mem, t, x)
  {
    forall q | q in t.of ensures mem'[q] == mem[q] && q !in free' { assert q in t.of.Keys; }
    TreeFrame(mem, mem', root, t);
  }

  lemma UnmapSpace(mem: seq<Page>, root: nat, t: Tables, user: map<nat, nat>, first: nat, free: seq<nat>,
                   m: seq<Page>, free': seq<nat>, p: nat)
    requires SpaceOk(mem, root, t, user, first, free) && free' == [p] + free
    requires Owned(m, root, t, first, free') && User(m, t, user - {p})
    ensures SpaceOk(m, root, t, user - {p}, first, free')
  {
  }

  lemma UnmapUser(mem: seq<Page>, t: Tables, user: map<nat, nat>, v: nat, m: seq<Page>)
    requires User(mem, t, user) && v < USERTOP && Present(Entry(mem, t, v)) && |m| == |mem|
    requires forall x: nat :: Entry(m, t, x) == if x == v then 0 else Entry(mem, t, x)
    ensures User(m, t, user - {Frame(Entry(mem, t, v))})
  {
  }

  lemma CutMore(m0: seq<Page>, f0: seq<nat>, m: seq<Page>, f: seq<nat>, m': seq<Page>, f': seq<nat>,
                root: nat, t: Tables, user0: map<nat, nat>, user: map<nat, nat>, first: nat, lo: nat, v: nat)
    requires SpaceOk(m, root, t, user, first, f) && v < USERTOP && Present(Entry(m, t, v)) && lo <= v
    requires user == Cut(user0, lo, v) && Emptied(m0, f0, m, f, t, CutPages(user0, lo, v)) && CutMap(m0, m, t, lo, v)
    requires |m'| == TOP && f' == [Frame(Entry(m, t, v))] + f
    requires forall x: nat :: Entry(m', t, x) == if x == v then 0 else Entry(m, t, x)
    requires forall q: nat :: q < TOP && q != Frame(Entry(m, t, v)) && q !in t.of ==> m'[q] == m[q]
    ensures user - {Frame(Entry(m, t, v))} == Cut(user0, lo, v + 1)
    ensures Emptied(m0, f0, m', f', t, CutPages(user0, lo, v + 1)) && CutMap(m0, m', t, lo, v + 1)
  {
    hide Entry, Frame, Present, SpaceOk, Cut, CutPages, Emptied, CutMap, Owned;
    SpaceOwned(m, root, t, user, first, f);
    UserPage(m, root, t, user, first, f, v);
    CutOne(m, root, t, user0, user, first, f, lo, v);
    EmptiedMore(m0, f0, m, f, m', f', t, CutPages(user0, lo, v), Frame(Entry(m, t, v)));
    CutMapMore(m0, m, m', t, lo, v);
  }

  lemma EmptiedMore(m0: seq<Page>, f0: seq<nat>, m: seq<Page>, f: seq<nat>, m': seq<Page>, f': seq<nat>, t: Tables,
                    ps: set<nat>, p: nat)
    requires Emptied(m0, f0, m, f, t, ps) && f' == [p] + f && |m'| == |m|
    requires forall q: nat :: q < |m| && q != p && q !in t.of ==> m'[q] == m[q]
    ensures Emptied(m0, f0, m', f', t, ps + {p})
  {
    assert forall q :: q in f' <==> q == p || q in f;
  }

  lemma CutMapMore(m0: seq<Page>, m: seq<Page>, m': seq<Page>, t: Tables, lo: nat, v: nat)
    requires CutMap(m0, m, t, lo, v) && lo <= v && Present(Entry(m, t, v))
    requires forall x: nat :: Entry(m', t, x) == if x == v then 0 else Entry(m, t, x)
    ensures CutMap(m0, m', t, lo, v + 1)
  {
    hide Entry;
  }

  lemma CutOne(m: seq<Page>, root: nat, t: Tables, user0: map<nat, nat>, user: map<nat, nat>, first: nat,
               f: seq<nat>, lo: nat, v: nat)
    requires SpaceOk(m, root, t, user, first, f) && v < USERTOP && Present(Entry(m, t, v)) && lo <= v
    requires user == Cut(user0, lo, v)
    ensures user - {Frame(Entry(m, t, v))} == Cut(user0, lo, v + 1)
    ensures CutPages(user0, lo, v + 1) == CutPages(user0, lo, v) + {Frame(Entry(m, t, v))}
  {
    hide Entry, Frame, Present, SpaceOk, Cut, CutPages, User;
    UserPage(m, root, t, user, first, f, v);
    SpaceUser(m, root, t, user, first, f);
    UserOnce(m, t, user, v);
    CutStep(user0, user, lo, v, Frame(Entry(m, t, v)));
  }

  lemma UserOnce(m: seq<Page>, t: Tables, user: map<nat, nat>, v: nat)
    requires User(m, t, user)
    ensures forall q :: q in user && user[q] == v ==> q == Frame(Entry(m, t, v))
  {
    hide Entry, Frame, Present;
  }

  lemma CutStep(user0: map<nat, nat>, user: map<nat, nat>, lo: nat, v: nat, p: nat)
    requires user == Cut(user0, lo, v) && lo <= v && p in user && user[p] == v
    requires forall q :: q in user && user[q] == v ==> q == p
    ensures user - {p} == Cut(user0, lo, v + 1) && CutPages(user0, lo, v + 1) == CutPages(user0, lo, v) + {p}
  {
    forall q | q in user0 && user0[q] == v ensures q == p { assert q in user; }
  }

  lemma CutSkip(m0: seq<Page>, f0: seq<nat>, m: seq<Page>, f: seq<nat>,
                root: nat, t: Tables, user0: map<nat, nat>, user: map<nat, nat>, first: nat, lo: nat, v: nat)
    requires SpaceOk(m, root, t, user, first, f) && !Present(Entry(m, t, v)) && lo <= v
    requires user == Cut(user0, lo, v) && Emptied(m0, f0, m, f, t, CutPages(user0, lo, v)) && CutMap(m0, m, t, lo, v)
    ensures user == Cut(user0, lo, v + 1)
    ensures Emptied(m0, f0, m, f, t, CutPages(user0, lo, v + 1)) && CutMap(m0, m, t, lo, v + 1)
  {
    hide Entry, Frame, Present, Tree, Taken;
    forall q | q in user0 ensures user0[q] != v {
      if q in user { assert user[q] == user0[q] && Present(Entry(m, t, user[q])); }
    }
    assert CutPages(user0, lo, v + 1) == CutPages(user0, lo, v);
    hide Cut, CutPages, User;
  }

  // ---- freeing an address space ------------------------------------------------------------------

  lemma WholeTree(mem: seq<Page>, root: nat, t: Tables, user: map<nat, nat>, first: nat, free: seq<nat>)
    requires SpaceOk(mem, root, t, user, first, free)
    ensures Tree(mem, root, t) && Key(3, 0) in t.at && t.at[Key(3, 0)] == root
    ensures Subtree(t, Key(3, 0)) == t.of.Keys && Held(mem, mem, Subtree(t, Key(3, 0)), free, first)
  {
    hide Below;
    forall p | p in t.of ensures t.of[p].level <= 3 && Below(t.of[p], Key(3, 0)) { AllBelowRoot(t, root, t.of[p]); }
  }

  lemma EmptiedFreed(m0: seq<Page>, f0: seq<nat>, m: seq<Page>, f: seq<nat>, m': seq<Page>, f': seq<nat>, t: Tables,
                     ps: set<nat>)
    requires Emptied(m0, f0, m, f, t, ps) && Freed(m, f, m', f', t.of.Keys)
    ensures Freed(m0, f0, m', f', t.of.Keys + ps)
  {
  }

  // ---- the kernel's mappings -----------------------------------------------------------------------

  /** A row of kmap[], in pages. */
  datatype Range = Range(v: nat, n: nat, frame: nat, perm: nat)

  ghost predicate ValidKmap(kmap: seq<Range>) {
    && (forall i :: 0 <= i < |kmap| ==>
          0 < kmap[i].n && USERTOP <= kmap[i].v && kmap[i].v + kmap[i].n <= Pow(4) && kmap[i].perm < PGSIZE)
    && (forall i, j :: 0 <= i < j < |kmap| ==>
          kmap[i].v + kmap[i].n <= kmap[j].v || kmap[j].v + kmap[j].n <= kmap[i].v)
  }

  ghost function Kernel(kmap: seq<Range>, x: nat): nat
    requires ValidKmap(kmap)
  {
    if kmap == [] then 0 else
      var r := kmap[|kmap| - 1];
      if r.v <= x < r.v + r.n then Pte(r.frame + x - r.v, r.perm) else Kernel(kmap[..|kmap| - 1], x)
  }

  ghost predicate KernelMap(mem: seq<Page>, t: Tables, kmap: seq<Range>)
    requires ValidKmap(kmap)
  {
    forall x: nat :: Entry(mem, t, x) == Kernel(kmap, x)
  }

  /** The pages ps have been taken from the free list, and no page that was in use has changed. */
  ghost predicate Took(mem: seq<Page>, free: seq<nat>, mem': seq<Page>, free': seq<nat>, ps: set<nat>) {
    && |mem'| == |mem|
    && (forall p :: p in free <==> p in free' || p in ps)
    && (forall p :: p in ps ==> p !in free')
    && (forall p: nat :: p < |mem| && p !in free ==> mem'[p] == mem[p])
  }

  lemma TookNone(mem: seq<Page>, free: seq<nat>)
    ensures Took(mem, free, mem, free, {})
  {
  }

  function NoTables(): Tables { Tables(map[], map[]) }

  function OneTable(root: nat): Tables { Tables(map[Key(3, 0) := root], map[root := Key(3, 0)]) }

  lemma RootOk(mem: seq<Page>, head: nat, free: seq<nat>, first: nat, head': nat, free': seq<nat>, root: nat)
    requires |mem| == TOP && FreeList(mem, head', free', first) && 0 < first <= root < TOP && root !in free'
    requires forall p :: p in free <==> p == root || p in free'
    ensures var m, t := mem[root := ZeroPage()], OneTable(root);
      && FreeList(m, head', free', first) && Owned(m, root, t, first, free') && Took(mem, free, m, free', t.of.Keys)
      && forall x: nat :: Entry(m, t, x) == 0
  {
    var m, t := mem[root := ZeroPage()], OneTable(root);
    KeepFree(mem, m, head', free', first);
    hide FreeList;
    forall i | 0 <= i < ENTRIES ensures m[root][i] == Link(t, Child(Key(3, 0), i)) {}
    assert Linked(m, t, Key(3, 0));
  }

  /** The rows before row i say nothing about its pages, nor about user pages. */
  lemma {:induction false} KernelOutside(kmap: seq<Range>, i: nat, n: nat, x: nat)
    requires ValidKmap(kmap) && n <= i <= |kmap|
    requires x < USERTOP || (i < |kmap| && kmap[i].v <= x < kmap[i].v + kmap[i].n)
    ensures ValidKmap(kmap[..n]) && Kernel(kmap[..n], x) == 0
    decreases n
  {
    if n > 0 {
      var k := kmap[..n];
      assert k[..n - 1] == kmap[..n - 1] && k[n - 1] == kmap[n - 1];
      KernelOutside(kmap, i, n - 1, x);
    }
  }

  lemma KernelNone(kmap: seq<Range>)
    requires ValidKmap(kmap)
    ensures forall x: nat :: Kernel(kmap[..0], x) == 0
  {
  }

  /** The tables for the kernel's mappings. */
  ghost function KernelKeys(kmap: seq<Range>): set<Key> {
    if kmap == [] then {Key(3, 0)} else
      KernelKeys(kmap[..|kmap| - 1]) + Paths(kmap[|kmap| - 1].v, kmap[|kmap| - 1].n)
  }

  lemma {:induction false} RootKeys(kmap: seq<Range>)
    ensures 1 <= |KernelKeys(kmap)| && KernelKeys(kmap[..0]) == {Key(3, 0)}
  {
    hide Paths;
    KernelKeysIn(kmap, 0);
    assert kmap[..0] == [];
    assert Key(3, 0) in KernelKeys(kmap);
  }

  lemma {:induction false} KernelKeysIn(kmap: seq<Range>, i: nat)
    requires i <= |kmap|
    ensures KernelKeys(kmap[..i]) <= KernelKeys(kmap)
    decreases |kmap|
  {
    hide Paths;
    var n := |kmap| - 1;
    if i <= n {
      assert kmap[..n][..i] == kmap[..i];
      KernelKeysIn(kmap[..n], i);
    } else {
      assert kmap[..i] == kmap;
    }
  }

  lemma KernelRow(kmap: seq<Range>, i: nat, have: set<Key>, all: bool)
    requires i < |kmap| && Added(KernelKeys(kmap[..i]), have, Paths(kmap[i].v, kmap[i].n), all)
    ensures all ==> have == KernelKeys(kmap[..i + 1])
    ensures KernelKeys(kmap[..i]) + Paths(kmap[i].v, kmap[i].n) <= KernelKeys(kmap)
  {
    hide Paths;
    var k := kmap[..i + 1];
    assert k[..i] == kmap[..i] && k[i] == kmap[i];
    KernelKeysIn(kmap, i + 1);
  }

  /** The tree is all that has been taken. */
  lemma TookCount(m0: seq<Page>, h0: nat, f0: seq<nat>, m: seq<Page>, h: nat, f: seq<nat>, t: Tables, root: nat,
                  first: nat)
    requires FreeList(m0, h0, f0, first) && FreeList(m, h, f, first) && Took(m0, f0, m, f, t.of.Keys)
    requires Owned(m, root, t, first, f)
    ensures |f0| == |f| + |t.at.Keys|
  {
    ListDistinct(m0, h0, f0, first);
    ListDistinct(m, h, f, first);
    TableCount(t, root);
    hide FreeList, Tree;
    CountPages(f0, {}, f, t.of.Keys);
  }

  lemma KernelShort(m0: seq<Page>, h0: nat, f0: seq<nat>, m: seq<Page>, h: nat, f: seq<nat>, t: Tables, root: nat,
                    first: nat, kmap: seq<Range>, i: nat)
    requires FreeList(m0, h0, f0, first) && FreeList(m, h, f, first) && Took(m0, f0, m, f, t.of.Keys)
    requires Owned(m, root, t, first, f) && i < |kmap| && t.at.Keys == KernelKeys(kmap[..i])
    requires t.at.Keys + Paths(kmap[i].v, kmap[i].n) <= KernelKeys(kmap)
    requires |f| < Missing(Paths(kmap[i].v, kmap[i].n), t.at.Keys)
    ensures |f0| < |KernelKeys(kmap)|
  {
    hide Owned, Took, FreeList, KernelKeys, Paths, Added;
    TookCount(m0, h0, f0, m, h, f, t, root, first);
    AddedAll(t.at.Keys, Paths(kmap[i].v, kmap[i].n));
    KeysTaken(t.at.Keys, t.at.Keys + Paths(kmap[i].v, kmap[i].n), Paths(kmap[i].v, kmap[i].n), true);
    FewerKeys(t.at.Keys + Paths(kmap[i].v, kmap[i].n), KernelKeys(kmap));
  }

  lemma FewerKeys(a: set<Key>, b: set<Key>)
    requires a <= b
    ensures |a| <= |b|
  {
    if a != b { SmallerSet(a, b); }
  }

  lemma KernelFree(mem: seq<Page>, t: Tables, kmap: seq<Range>, i: nat)
    requires ValidKmap(kmap) && i < |kmap| && forall x: nat :: Entry(mem, t, x) == Kernel(kmap[..i], x)
    ensures Unmapped(mem, t, kmap[i].v, kmap[i].n)
  {
    hide Entry, Kernel;
    forall x: nat | kmap[i].v <= x < kmap[i].v + kmap[i].n ensures !Present(Entry(mem, t, x)) {
      KernelOutside(kmap, i, i, x);
    }
  }

  lemma KernelMore(m: seq<Page>, s: Tables, mem: seq<Page>, t: Tables, kmap: seq<Range>, i: nat)
    requires ValidKmap(kmap) && i < |kmap| && forall x: nat :: Entry(m, s, x) == Kernel(kmap[..i], x)
    requires MappedRange(m, s, mem, t, kmap[i].v, kmap[i].n, kmap[i].frame, kmap[i].perm)
    ensures forall x: nat :: Entry(mem, t, x) == Kernel(kmap[..i + 1], x)
  {
    hide Entry, Pte;
    var k := kmap[..i + 1];
    assert k[..i] == kmap[..i] && k[i] == kmap[i];
  }

  /** A tree that maps nothing below USERTOP is an address space without user pages. */
  lemma NoUser(mem: seq<Page>, t: Tables, root: nat, first: nat, free: seq<nat>)
    requires Owned(mem, root, t, first, free) && forall x: nat :: x < USERTOP ==> !Present(Entry(mem, t, x))
    ensures SpaceOk(mem, root, t, map[], first, free)
  {
  }

  lemma KernelPart(m: seq<Page>, s: Tables, mem: seq<Page>, t: Tables, kmap: seq<Range>, i: nat, n: nat,
                   root: nat, first: nat, free: seq<nat>)
    requires ValidKmap(kmap) && i < |kmap| && forall x: nat :: Entry(m, s, x) == Kernel(kmap[..i], x)
    requires MappedRange(m, s, mem, t, kmap[i].v, n, kmap[i].frame, kmap[i].perm)
    requires Owned(mem, root, t, first, free)
    ensures SpaceOk(mem, root, t, map[], first, free)
  {
    hide Entry, Pte, Owned, Kernel;
    forall x: nat | x < USERTOP ensures !Present(Entry(mem, t, x)) { KernelOutside(kmap, i, i, x); }
    NoUser(mem, t, root, first, free);
  }

  lemma KernelSpace(mem: seq<Page>, t: Tables, kmap: seq<Range>, root: nat, first: nat, free: seq<nat>)
    requires ValidKmap(kmap) && forall x: nat :: Entry(mem, t, x) == Kernel(kmap, x)
    requires Owned(mem, root, t, first, free)
    ensures SpaceOk(mem, root, t, map[], first, free)
  {
    hide Entry, Owned, Kernel;
    assert kmap[..|kmap|] == kmap;
    forall x: nat | x < USERTOP ensures !Present(Entry(mem, t, x)) { KernelOutside(kmap, |kmap|, |kmap|, x); }
    NoUser(mem, t, root, first, free);
  }

  lemma TookGrew(m0: seq<Page>, f0: seq<nat>, m: seq<Page>, f: seq<nat>, s: Tables, m': seq<Page>, f': seq<nat>,
                 t: Tables, first: nat, root: nat)
    requires Took(m0, f0, m, f, s.of.Keys) && Grew(m, f, s, m', f', t) && Owned(m', root, t, first, f')
    ensures Took(m0, f0, m', f', t.of.Keys)
  {
  }

  lemma NoPages()
    ensures CutPages(map[], 0, Up(0)) == {}
  {
  }

  /** All that was taken has been returned. */
  lemma TookBack(m0: seq<Page>, f0: seq<nat>, m: seq<Page>, f: seq<nat>, m': seq<Page>, f': seq<nat>, ps: set<nat>,
                 qs: set<nat>)
    requires Took(m0, f0, m, f, ps) && Freed(m, f, m', f', ps + qs) && qs <= ps
    ensures Took(m0, f0, m', f', {})
  {
  }

  /** What a call of freevm leaves behind of all that an address space had taken: the user pages
      from the size it is given on. Everything is back exactly when there are none. */
  lemma AllReturned(m0: seq<Page>, f0: seq<nat>, m: seq<Page>, f: seq<nat>, m': seq<Page>, f': seq<nat>,
                    root: nat, t: Tables, user: map<nat, nat>, first: nat, sz: nat)
    requires SpaceOk(m, root, t, user, first, f) && Took(m0, f0, m, f, t.of.Keys + user.Keys)
    requires Freed(m, f, m', f', t.of.Keys + CutPages(user, 0, Up(sz)))
    ensures Took(m0, f0, m', f', user.Keys - CutPages(user, 0, Up(sz)))
    ensures Took(m0, f0, m', f', {}) <==> forall p :: p in user ==> user[p] * PGSIZE < sz
  {
    hide Tree, User, Up;
    var cut := CutPages(user, 0, Up(sz));
    assert forall p :: p in user ==> (p in cut <==> user[p] < Up(sz));
    assert forall p :: p in user ==> p in f0 && (p in f' <==> p in cut);
    forall p | p in user ensures user[p] < Up(sz) <==> user[p] * PGSIZE < sz { UpAt(user[p], sz); }
  }

  lemma UpAt(v: nat, sz: nat)
    ensures v < Up(sz) <==> v * PGSIZE < sz
  {
  }

  // ---- giving an address space another page --------------------------------------------------------

  /** How many pages from PGROUNDUP(oldsz) on a size of newsz takes. */
  function Pages(oldsz: nat, newsz: nat): nat { if Up(oldsz) <= Up(newsz) then Up(newsz) - Up(oldsz) else 0 }

  /** The pages of the space and the free pages are together what they were, and no page in use
      outside the tables has changed. */
  ghost predicate Conserved(m0: seq<Page>, f0: seq<nat>, t0: Tables, u0: map<nat, nat>,
                            m: seq<Page>, f: seq<nat>, t: Tables, u: map<nat, nat>) {
    && |m| == |m0|
    && (forall p :: p in f0 || p in t0.of || p in u0 <==> p in f || p in t.of || p in u)
    && (forall p :: p in f || p in t.of ==> p in f0 || p in t0.of)
    && (forall p: nat :: p < |m0| && p !in f0 && p !in t0.of ==> m[p] == m0[p])
  }

  /** What a space of these tables takes to get n pages from lo on. */
  ghost function Wanted(had: set<Key>, lo: nat, n: nat): nat { Missing(Paths(lo, n), had) + n }

  lemma SpaceCount(m0: seq<Page>, h0: nat, f0: seq<nat>, t0: Tables, u0: map<nat, nat>,
                   m: seq<Page>, h: nat, f: seq<nat>, t: Tables, u: map<nat, nat>, root: nat, first: nat)
    requires FreeList(m0, h0, f0, first) && FreeList(m, h, f, first) && Conserved(m0, f0, t0, u0, m, f, t, u)
    requires SpaceOk(m0, root, t0, u0, first, f0) && SpaceOk(m, root, t, u, first, f)
    ensures |f0| + |t0.at.Keys| + |u0.Keys| == |f| + |t.at.Keys| + |u.Keys|
  {
    ListDistinct(m0, h0, f0, first);
    ListDistinct(m, h, f, first);
    ConservedCount(m0, f0, t0, u0, m, f, t, u, root, first);
  }

  lemma ConservedCount(m0: seq<Page>, f0: seq<nat>, t0: Tables, u0: map<nat, nat>,
                       m: seq<Page>, f: seq<nat>, t: Tables, u: map<nat, nat>, root: nat, first: nat)
    requires NoDup(f0) && NoDup(f) && Conserved(m0, f0, t0, u0, m, f, t, u)
    requires SpaceOk(m0, root, t0, u0, first, f0) && SpaceOk(m, root, t, u, first, f)
    ensures |f0| + |t0.at.Keys| + |u0.Keys| == |f| + |t.at.Keys| + |u.Keys|
  {
    TableCount(t0, root);
    TableCount(t, root);
    hide Tree, User, NoDup;
    TwoSets(t0.of.Keys, u0.Keys);
    TwoSets(t.of.Keys, u.Keys);
    var ps0, ps := t0.of.Keys + u0.Keys, t.of.Keys + u.Keys;
    assert forall p :: p in ps0 <==> p in t0.of || p in u0;
    assert forall p :: p in ps <==> p in t.of || p in u;
    CountPages(f0, ps0, f, ps);
  }

  lemma PathsOne(had: set<Key>, mid: set<Key>, have: set<Key>, lo: nat, j: nat, n: nat, all: bool)
    requires j < n && Added(had, mid, Paths(lo, j), true) && Added(mid, have, Paths(lo + j, 1), all)
    ensures if all then Added(had, have, Paths(lo, j + 1), true) else Added(had, have, Paths(lo, n), false)
  {
    hide Path, Added;
    assert Paths(lo + j, 1) == Paths(lo + j, 0) + Path(lo + j) == Path(lo + j);
    hide Paths;
    PathsNext(had, mid, have, lo, j, n, all);
  }

  lemma OneMore(u: map<nat, nat>, q: nat, v: nat)
    requires q !in u
    ensures |u[q := v].Keys| == |u.Keys| + 1
  {
    assert u[q := v].Keys == u.Keys + {q};
  }

  /** Too few pages for the next page are too few for all n. */
  lemma TooFew(had: set<Key>, have: set<Key>, lo: nat, j: nat, n: nat, f0: nat, f: nat)
    requires f0 + |had| == f + |have| + j && Added(had, have, Paths(lo, j), true) && j < n
    requires f < Wanted(have, lo + j, 1)
    ensures f0 < Wanted(had, lo, n)
  {
    hide Path, Paths, Added, Missing;
    PathsWithin(lo, j + 1, n);
    AddedAll(have, Paths(lo + j, 1));
    var next := have + Paths(lo + j, 1);
    PathsOne(had, have, next, lo, j, n, true);
    KeysTaken(had, next, Paths(lo, j + 1), true);
    KeysTaken(have, next, Paths(lo + j, 1), true);
    FewerMissing(Paths(lo, j + 1), Paths(lo, n), had);
  }

  lemma AddedAll(had: set<Key>, want: set<Key>)
    ensures Added(had, had + want, want, true)
  {
  }

  lemma FewerMissing(a: set<Key>, b: set<Key>, had: set<Key>)
    requires a <= b
    ensures Missing(a, had) <= Missing(b, had)
  {
    FewerKeys(a - had, b - had);
  }

  /** n zeroed pages have appeared from lo on, writable by the user; the rest reads as before. */
  ghost predicate Grown(m0: seq<Page>, t0: Tables, m: seq<Page>, t: Tables, lo: nat, n: nat) {
    forall v: nat :: v < USERTOP ==>
      Image(m, t, v) == if lo <= v < lo + n then Some((7, ZeroPage())) else Image(m0, t0, v)
  }

  /** u is u0 and pages for lo up to v. */
  ghost predicate New(u0: map<nat, nat>, u: map<nat, nat>, lo: nat, v: nat) {
    && (forall p :: p in u0 ==> p in u && u[p] == u0[p])
    && (forall p :: p in u && p !in u0 ==> lo <= u[p] < v)
  }

  lemma NothingYet(mem: seq<Page>, free: seq<nat>, t: Tables, user: map<nat, nat>, lo: nat)
    ensures Conserved(mem, free, t, user, mem, free, t, user) && Grown(mem, t, mem, t, lo, 0) && New(user, user, lo, lo)
  {
  }

  lemma ConservedTwice(m0: seq<Page>, f0: seq<nat>, t0: Tables, u0: map<nat, nat>,
                       m: seq<Page>, f: seq<nat>, t: Tables, u: map<nat, nat>,
                       m': seq<Page>, f': seq<nat>, t': Tables, u': map<nat, nat>)
    requires Conserved(m0, f0, t0, u0, m, f, t, u) && Conserved(m, f, t, u, m', f', t', u')
    ensures Conserved(m0, f0, t0, u0, m', f', t', u')
  {
  }

  /** The page q that has not been mapped, if there is one. */
  function Unused(q: nat): seq<nat> { if q == 0 then [] else [q] }

  /** Page v is now page q, and otherwise the space is as it was. */
  ghost predicate PageAdded(m: seq<Page>, t: Tables, m': seq<Page>, t': Tables, v: nat, q: nat, perm: nat, page: Page)
    requires perm < PGSIZE
  {
    && (forall x: nat :: Entry(m', t', x) == if x == v then Pte(q, perm) else Entry(m, t, x))
    && (forall x: nat :: x < USERTOP ==>
          Image(m', t', x) == if x == v then Some((Flags(Pte(q, perm)), page)) else Image(m, t, x))
  }

  ghost predicate SameImages(m: seq<Page>, t: Tables, m': seq<Page>, t': Tables) {
    forall x: nat :: x < USERTOP ==> Image(m', t', x) == Image(m, t, x)
  }

  lemma NothingAdded(m: seq<Page>, f: seq<nat>, t: Tables, user: map<nat, nat>, root: nat, first: nat)
    requires 0 < first && SpaceOk(m, root, t, user, first, f)
    ensures Conserved(m, f, t, user, m, f, t, user) && SameImages(m, t, m, t) && 0 !in user
  {
    assert 0 in user ==> 0 in user.Keys;
    hide Tree, User;
  }

  lemma OneUnmapped(m: seq<Page>, t: Tables, m1: seq<Page>, v: nat)
    requires !Present(Entry(m, t, v)) && SameMap(m, t, m1, t)
    ensures Unmapped(m1, t, v, 1)
  {
    hide Entry, Present;
    forall x: nat | v <= x < v + 1 ensures !Present(Entry(m1, t, x)) { assert x == v; }
  }

  /** A page taken from the free list and filled: the space has not noticed. */
  lemma TakeOk(m: seq<Page>, head: nat, f: seq<nat>, f1: seq<nat>, first: nat, root: nat, t: Tables,
               user: map<nat, nat>, q: nat, page: Page)
    requires SpaceOk(m, root, t, user, first, f) && FreeList(m, head, f1, first)
    requires first <= q < TOP && q !in f1 && forall p :: p in f <==> p == q || p in f1
    ensures |m| == TOP
    ensures var m1 := m[q := page];
      && FreeList(m1, head, f1, first) && Owned(m1, root, t, first, f1) && SpaceOk(m1, root, t, user, first, f1)
      && SameMap(m, t, m1, t)
  {
    var m1 := m[q := page];
    assert forall p :: p in t.of || p in user ==> p != q && p !in f1 by {
      assert forall p :: p in t.of ==> p in t.of.Keys;
      assert forall p :: p in user ==> p in user.Keys;
    }
    KeepFree(m, m1, head, f1, first) by { assert forall n :: 0 <= n < |f1| ==> f1[n] in f1; }
    hide FreeList;
    TreeFrame(m, m1, root, t);
    SpaceFrame(m, m1, root, t, user, first, f, f1);
  }

  /** mappages put page q at v: the space has one page more. */
  lemma MapOk(m: seq<Page>, f: seq<nat>, t: Tables, user: map<nat, nat>, m1: seq<Page>, f1: seq<nat>,
              m2: seq<Page>, f2: seq<nat>, t2: Tables, root: nat, first: nat, v: nat, q: nat, perm: nat, page: Page)
    requires SpaceOk(m, root, t, user, first, f) && v < USERTOP && 0 < first <= q < TOP && perm < PGSIZE
    requires q !in f1 && (forall p :: p in f <==> p == q || p in f1) && m1 == m[q := page] && SameMap(m, t, m1, t)
    requires Grew(m1, f1, t, m2, f2, t2) && Owned(m2, root, t2, first, f2)
    requires MappedRange(m1, t, m2, t2, v, 1, q, perm) && !Present(Entry(m, t, v))
    ensures SpaceOk(m2, root, t2, user[q := v], first, f2) && q !in user
    ensures Conserved(m, f, t, user, m2, f2, t2, user[q := v])
    ensures PageAdded(m, t, m2, t2, v, q, perm, page)
  {
    hide Entry, Pte, Frame, Flags, Present, Tree, Grew, MappedRange, SameMap, Taken, Owned, SpaceOk, Conserved, User,
      Image;
    MapEntries(m, t, m1, m2, t2, v, q, perm);
    MapPlaces(m, f, t, user, m1, f1, m2, f2, t2, root, first, v, q, page);
    PteParts(q, perm);
    MapUser(m, t, user, m2, t2, v, q, perm) by { SpaceUser(m, root, t, user, first, f); }
    SpaceFrom(m2, root, t2, user[q := v], first, f2);
    MapImage(m, f, t, user, m2, t2, root, first, v, q, perm, page);
  }

  lemma MapImage(m: seq<Page>, f: seq<nat>, t: Tables, user: map<nat, nat>, m2: seq<Page>, t2: Tables,
                 root: nat, first: nat, v: nat, q: nat, perm: nat, page: Page)
    requires SpaceOk(m, root, t, user, first, f) && v < USERTOP && q < |m2| == |m| && perm < PGSIZE && m2[q] == page
    requires forall p :: p in user ==> p < TOP && p < |m| && m2[p] == m[p]
    requires Present(Pte(q, perm)) && Frame(Pte(q, perm)) == q
    requires forall x: nat :: Entry(m2, t2, x) == if x == v then Pte(q, perm) else Entry(m, t, x)
    ensures forall x: nat :: x < USERTOP ==>
      Image(m2, t2, x) == if x == v then Some((Flags(Pte(q, perm)), page)) else Image(m, t, x)
  {
  }

  lemma MapEntries(m: seq<Page>, t: Tables, m1: seq<Page>, m2: seq<Page>, t2: Tables, v: nat, q: nat, perm: nat)
    requires perm < PGSIZE && SameMap(m, t, m1, t) && MappedRange(m1, t, m2, t2, v, 1, q, perm)
    ensures forall x: nat :: Entry(m2, t2, x) == if x == v then Pte(q, perm) else Entry(m, t, x)
  {
  }

  lemma PteParts(q: nat, perm: nat)
    requires perm < PGSIZE
    ensures Present(Pte(q, perm)) && Frame(Pte(q, perm)) == q
    ensures perm % 2 == 1 ==> Flags(Pte(q, perm)) == perm
    ensures perm == 6 ==> Flags(Pte(q, perm)) == 7
  {
    var low := if perm % 2 == 1 then perm else perm + PTE_P;
    OddLow(perm, low);
    assert Pte(q, perm) == q * PGSIZE + low;
    hide Pte, Present, Frame, Flags;
    WordParts(q, low);
  }

  lemma OddLow(perm: nat, low: nat)
    requires perm < PGSIZE && low == if perm % 2 == 1 then perm else perm + PTE_P
    ensures low < PGSIZE && low % 2 == 1
  {
  }

  lemma WordParts(q: nat, low: nat)
    requires low < PGSIZE && low % 2 == 1
    ensures var w := q * PGSIZE + low; Present(w) && Frame(w) == q && Flags(w) == low
  {
    OddWord(q, low / 2, low);
    Split(q, low);
  }

  lemma OddWord(q: nat, h: nat, low: nat)
    requires low == 2 * h + 1
    ensures (q * PGSIZE + low) % 2 == 1
  {
    assert q * PGSIZE + low == 2 * (2048 * q + h) + 1;
  }

  lemma Split(q: nat, low: nat)
    requires low < PGSIZE
    ensures (q * PGSIZE + low) / PGSIZE == q && (q * PGSIZE + low) % PGSIZE == low
  {
  }

  /** Where the pages are after a page has been taken and mapped, or not mapped. */
  lemma MapPlaces(m: seq<Page>, f: seq<nat>, t: Tables, user: map<nat, nat>, m1: seq<Page>, f1: seq<nat>,
                  m2: seq<Page>, f2: seq<nat>, t2: Tables, root: nat, first: nat, v: nat, q: nat, page: Page)
    requires SpaceOk(m, root, t, user, first, f) && first <= q < TOP
    requires q !in f1 && (forall p :: p in f <==> p == q || p in f1) && m1 == m[q := page]
    requires Grew(m1, f1, t, m2, f2, t2) && Owned(m2, root, t2, first, f2)
    ensures |m2| == TOP == |m| && q !in user && q !in f2 && q !in t2.of && m2[q] == page
    ensures forall p :: p in user ==> first <= p < TOP && m2[p] == m[p] && p !in f2 && p !in t2.of
    ensures Conserved(m, f, t, user, m2, f2, t2, user[q := v])
    ensures Conserved(m, f, t, user, m2, [q] + f2, t2, user)
  {
    hide Tree, User;
    assert |m| == TOP by { SpaceOwned(m, root, t, user, first, f); }
    assert forall p :: p in t.of ==> p in t.of.Keys;
    assert forall p :: p in t2.of ==> p in t2.of.Keys;
    assert forall p :: p in user ==> p in user.Keys;
    assert forall p :: p in [q] + f2 <==> p == q || p in f2;
  }

  lemma MapUser(m: seq<Page>, t: Tables, user: map<nat, nat>, m2: seq<Page>, t2: Tables, v: nat, q: nat, perm: nat)
    requires User(m, t, user) && v < USERTOP && !Present(Entry(m, t, v)) && 0 < q < |m2| == |m| && perm < PGSIZE
    requires q !in user && Present(Pte(q, perm)) && Frame(Pte(q, perm)) == q
    requires forall x: nat :: Entry(m2, t2, x) == if x == v then Pte(q, perm) else Entry(m, t, x)
    ensures User(m2, t2, user[q := v])
  {
  }

  lemma SpaceFrom(m: seq<Page>, root: nat, t: Tables, user: map<nat, nat>, first: nat, free: seq<nat>)
    requires Owned(m, root, t, first, free) && User(m, t, user)
    requires forall p :: p in user ==> first <= p < TOP && p !in free && p !in t.of
    ensures SpaceOk(m, root, t, user, first, free)
  {
  }

  /** No memory for a table: the page q is still the caller's, and the space is as it was. */
  lemma GiveBack(m: seq<Page>, f: seq<nat>, t: Tables, user: map<nat, nat>, m1: seq<Page>, f1: seq<nat>,
                 m2: seq<Page>, f2: seq<nat>, t2: Tables, root: nat, first: nat, v: nat, q: nat, perm: nat, page: Page)
    requires SpaceOk(m, root, t, user, first, f) && first <= q < TOP && perm < PGSIZE
    requires q !in f1 && (forall p :: p in f <==> p == q || p in f1) && m1 == m[q := page] && SameMap(m, t, m1, t)
    requires Grew(m1, f1, t, m2, f2, t2) && Owned(m2, root, t2, first, f2)
    requires MappedRange(m1, t, m2, t2, v, 0, q, perm)
    ensures SpaceOk(m2, root, t2, user, first, [q] + f2) && q !in f2 && q !in t2.of && q !in user
    ensures Conserved(m, f, t, user, m2, [q] + f2, t2, user)
    ensures SameImages(m, t, m2, t2)
  {
    hide Entry, Frame, Present, Tree, Grew, MappedRange, Taken, Owned, SpaceOk, User, Conserved, SameMap, Image, Pte;
    MapPlaces(m, f, t, user, m1, f1, m2, f2, t2, root, first, v, q, page);
    MappedNothing(m, t, m1, m2, t2, v, q, perm);
    SpaceOwned(m, root, t, user, first, f);
    OwnedSize(m2, root, t2, first, f2);
    SameUser(m, t, m2, t2, user, root, first, f);
    OwnedMore(m2, root, t2, user, first, f2, q);
    forall x: nat | x < USERTOP ensures Image(m2, t2, x) == Image(m, t, x) {
      SameImage(m, f, t, user, m2, t2, root, first, x);
    }
  }

  lemma OwnedSize(m: seq<Page>, root: nat, t: Tables, first: nat, f: seq<nat>)
    requires Owned(m, root, t, first, f)
    ensures |m| == TOP
  {
  }

  /** Nothing has been mapped: the tables read as they did. */
  lemma MappedNothing(m: seq<Page>, t: Tables, m1: seq<Page>, m2: seq<Page>, t2: Tables, v: nat, q: nat, perm: nat)
    requires perm < PGSIZE && SameMap(m, t, m1, t) && MappedRange(m1, t, m2, t2, v, 0, q, perm)
    ensures SameMap(m, t, m2, t2)
  {
    hide Entry, Pte;
  }

  /** With the page q given back in front of the free pages. */
  lemma OwnedMore(m: seq<Page>, root: nat, t: Tables, user: map<nat, nat>, first: nat, f: seq<nat>, q: nat)
    requires Owned(m, root, t, first, f) && |m| == TOP && q !in t.of && q !in user && User(m, t, user)
    requires forall p :: p in user ==> first <= p < TOP && p !in f && p !in t.of
    ensures SpaceOk(m, root, t, user, first, [q] + f)
  {
    hide Tree, User;
    assert forall p :: p in [q] + f <==> p == q || p in f;
    assert forall p :: p in user.Keys ==> p in user && p !in t.of.Keys;
  }

  lemma SameImage(m: seq<Page>, f: seq<nat>, t: Tables, user: map<nat, nat>, m2: seq<Page>, t2: Tables, root: nat,
                  first: nat, x: nat)
    requires SpaceOk(m, root, t, user, first, f) && SameMap(m, t, m2, t2) && |m| == |m2| && x < USERTOP
    requires forall p :: p in user && p < |m| ==> m2[p] == m[p]
    ensures Image(m2, t2, x) == Image(m, t, x)
  {
    hide Entry, Frame, Present, SpaceOk;
    if Present(Entry(m, t, x)) { UserPage(m, root, t, user, first, f, x); }
  }

  lemma SameUser(m: seq<Page>, t: Tables, m2: seq<Page>, t2: Tables, user: map<nat, nat>, root: nat, first: nat,
                 f: seq<nat>)
    requires SpaceOk(m, root, t, user, first, f) && SameMap(m, t, m2, t2) && |m2| == TOP
    ensures User(m2, t2, user)
  {
  }

  /** In an address space nothing is seen exactly where no entry is present. */
  lemma SeenPresent(m: seq<Page>, root: nat, t: Tables, user: map<nat, nat>, first: nat, f: seq<nat>, v: nat)
    requires SpaceOk(m, root, t, user, first, f) && v < USERTOP
    ensures Image(m, t, v) == None <==> !Present(Entry(m, t, v))
  {
  }

  // ---- allocuvm ------------------------------------------------------------------------------------

  /** How far allocuvm has come when the pages from lo up to v are there. */
  ghost predicate Progress(m0: seq<Page>, f0: seq<nat>, t0: Tables, u0: map<nat, nat>,
                           m: seq<Page>, f: seq<nat>, t: Tables, u: map<nat, nat>, lo: nat, v: nat) {
    && lo <= v && Conserved(m0, f0, t0, u0, m, f, t, u)
    && Grown(m0, t0, m, t, lo, v - lo) && New(u0, u, lo, v)
    && Added(t0.at.Keys, t.at.Keys, Paths(lo, v - lo), true) && |u.Keys| == |u0.Keys| + (v - lo)
  }

  lemma NoProgress(mem: seq<Page>, free: seq<nat>, t: Tables, user: map<nat, nat>, lo: nat)
    ensures Progress(mem, free, t, user, mem, free, t, user, lo, lo)
  {
    NothingYet(mem, free, t, user, lo);
    NoPaths(t.at.Keys, lo);
    hide Conserved, Grown, New, Added, Paths;
  }

  lemma ProgressMore(m0: seq<Page>, f0: seq<nat>, t0: Tables, u0: map<nat, nat>,
                     m: seq<Page>, f: seq<nat>, t: Tables, u: map<nat, nat>,
                     m': seq<Page>, f': seq<nat>, t': Tables, lo: nat, v: nat, q: nat)
    requires Progress(m0, f0, t0, u0, m, f, t, u, lo, v) && q !in u && Conserved(m, f, t, u, m', f', t', u[q := v])
    requires PageAdded(m, t, m', t', v, q, 6, ZeroPage()) && Added(t.at.Keys, t'.at.Keys, Paths(v, 1), true)
    ensures Progress(m0, f0, t0, u0, m', f', t', u[q := v], lo, v + 1)
  {
    hide Conserved, Grown, New, Added, Paths, PageAdded, Pte, Flags;
    ConservedTwice(m0, f0, t0, u0, m, f, t, u, m', f', t', u[q := v]);
    PteParts(q, 6);
    GrownMore(m0, t0, m, t, m', t', u0, u, lo, v, q, 6);
    PathsOne(t0.at.Keys, t.at.Keys, t'.at.Keys, lo, v - lo, v - lo + 1, true);
    OneMore(u, q, v);
  }

  lemma ProgressUndone(m0: seq<Page>, f0: seq<nat>, t0: Tables, u0: map<nat, nat>,
                       m: seq<Page>, f: seq<nat>, t: Tables, u: map<nat, nat>, m': seq<Page>, t': Tables,
                       lo: nat, v: nat, q: nat, root: nat, first: nat)
    requires Progress(m0, f0, t0, u0, m, f, t, u, lo, v) && Conserved(m, f, t, u, m', Unused(q), t', u)
    requires SameImages(m, t, m', t')
    ensures Conserved(m0, f0, t0, u0, m', Unused(q), t', u) && Grown(m0, t0, m', t', lo, v - lo) && New(u0, u, lo, v)
    ensures Unused(q) == if q == 0 then [] else [q] + []
  {
    hide Conserved, Grown, New, Added, Paths, SameImages;
    ConservedTwice(m0, f0, t0, u0, m, f, t, u, m', Unused(q), t', u);
    SameGrown(m0, t0, m, t, m', t', lo, v - lo);
  }

  lemma AllocDone(m0: seq<Page>, h0: nat, f0: seq<nat>, t0: Tables, u0: map<nat, nat>,
                  m: seq<Page>, h: nat, f: seq<nat>, t: Tables, u: map<nat, nat>, root: nat, first: nat,
                  lo: nat, n: nat)
    requires FreeList(m0, h0, f0, first) && FreeList(m, h, f, first) && Progress(m0, f0, t0, u0, m, f, t, u, lo, lo + n)
    requires SpaceOk(m0, root, t0, u0, first, f0) && SpaceOk(m, root, t, u, first, f)
    ensures |f0| == |f| + Wanted(t0.at.Keys, lo, n) && Added(t0.at.Keys, t.at.Keys, Paths(lo, n), true)
    ensures Conserved(m0, f0, t0, u0, m, f, t, u) && Grown(m0, t0, m, t, lo, n) && |u.Keys| == |u0.Keys| + n
  {
    hide FreeList, SpaceOk, Conserved, Grown, New, Added, Paths, Missing;
    SpaceCount(m0, h0, f0, t0, u0, m, h, f, t, u, root, first);
    KeysTaken(t0.at.Keys, t.at.Keys, Paths(lo, n), true);
  }

  lemma AllocShort(m0: seq<Page>, h0: nat, f0: seq<nat>, t0: Tables, u0: map<nat, nat>,
                   m: seq<Page>, h: nat, f: seq<nat>, t: Tables, u: map<nat, nat>, root: nat, first: nat,
                   lo: nat, v: nat, n: nat)
    requires FreeList(m0, h0, f0, first) && FreeList(m, h, f, first) && Progress(m0, f0, t0, u0, m, f, t, u, lo, v)
    requires SpaceOk(m0, root, t0, u0, first, f0) && SpaceOk(m, root, t, u, first, f)
    requires v < lo + n && |f| < Wanted(t.at.Keys, v, 1)
    ensures |f0| < Wanted(t0.at.Keys, lo, n)
  {
    hide FreeList, SpaceOk, Conserved, Grown, New, Added, Paths, Wanted;
    SpaceCount(m0, h0, f0, t0, u0, m, h, f, t, u, root, first);
    TooFew(t0.at.Keys, t.at.Keys, lo, v - lo, n, |f0|, |f|);
  }

  lemma StillUnmapped(m0: seq<Page>, f0: seq<nat>, t0: Tables, u0: map<nat, nat>,
                      m: seq<Page>, f: seq<nat>, t: Tables, u: map<nat, nat>, lo: nat, v: nat, n: nat,
                      root: nat, first: nat)
    requires Progress(m0, f0, t0, u0, m, f, t, u, lo, v) && SpaceOk(m, root, t, u, first, f)
    requires Unmapped(m0, t0, lo, n) && lo <= v < lo + n && v < USERTOP
    ensures !Present(Entry(m, t, v))
  {
    SeenPresent(m, root, t, u, first, f, v);
    hide SpaceOk, Entry, Present, Frame, Conserved, New, Added, Paths;
    assert !Present(Entry(m0, t0, v));
    assert Image(m0, t0, v) == None && Image(m, t, v) == Image(m0, t0, v);
  }

  lemma GrownMore(m0: seq<Page>, t0: Tables, m: seq<Page>, t: Tables, m': seq<Page>, t': Tables,
                  u0: map<nat, nat>, u: map<nat, nat>, lo: nat, v: nat, q: nat, perm: nat)
    requires lo <= v && Grown(m0, t0, m, t, lo, v - lo) && New(u0, u, lo, v) && q !in u
    requires perm < PGSIZE && Flags(Pte(q, perm)) == 7 && PageAdded(m, t, m', t', v, q, perm, ZeroPage())
    ensures Grown(m0, t0, m', t', lo, v + 1 - lo) && New(u0, u[q := v], lo, v + 1)
  {
  }

  lemma SameGrown(m0: seq<Page>, t0: Tables, m: seq<Page>, t: Tables, m': seq<Page>, t': Tables, lo: nat, n: nat)
    requires Grown(m0, t0, m, t, lo, n) && SameImages(m, t, m', t')
    ensures Grown(m0, t0, m', t', lo, n)
  {
  }

  lemma SpaceLess(mem: seq<Page>, root: nat, t: Tables, user: map<nat, nat>, first: nat, f: seq<nat>, f': seq<nat>)
    requires SpaceOk(mem, root, t, user, first, f) && forall p :: p in f' ==> p in f
    ensures SpaceOk(mem, root, t, user, first, f')
  {
  }

  lemma NotCut(m: seq<Page>, root: nat, t: Tables, u: map<nat, nat>, first: nat, f: seq<nat>, m1: seq<Page>,
               g: seq<nat>, f1: seq<nat>, q: nat, lo: nat, hi: nat)
    requires SpaceOk(m, root, t, u, first, f) && f == [q] + g && q !in g
    requires Emptied(m, g, m1, f1, t, CutPages(u, lo, hi))
    ensures q !in f1 && q !in t.of && q !in u && q !in Cut(u, lo, hi)
  {
  }

  lemma AfterFree(m: seq<Page>, f: seq<nat>, g: seq<nat>, m1: seq<Page>, f1: seq<nat>, m2: seq<Page>, f2: seq<nat>,
                  root: nat, t: Tables, u: map<nat, nat>, u': map<nat, nat>, first: nat, q: nat, lo: nat, hi: nat)
    requires f == [q] + g && Emptied(m, g, m1, f1, t, CutPages(u, lo, hi)) && CutMap(m, m1, t, lo, hi) && |m| == TOP
    requires SpaceOk(m1, root, t, u', first, f1) && q !in t.of && q !in u'
    requires f2 == [q] + f1 && |m2| == TOP && forall p: nat :: p < TOP && p != q ==> m2[p] == m1[p]
    ensures SpaceOk(m2, root, t, u', first, f2)
    ensures Emptied(m, f, m2, f2, t, CutPages(u, lo, hi)) && CutMap(m, m2, t, lo, hi)
  {
    assert forall p :: p in f2 <==> p == q || p in f1;
    assert forall p :: p in f <==> p == q || p in g;
    UsedNotFree(m1, root, t, u', first, f1);
    SpaceFrame(m1, m2, root, t, u', first, f1, f2);
    TreeFrame(m1, m2, root, t) by { hide User; }
    hide Entry, SpaceOk, Tree, CutPages;
  }

  lemma UsedNotFree(m: seq<Page>, root: nat, t: Tables, u: map<nat, nat>, first: nat, f: seq<nat>)
    requires SpaceOk(m, root, t, u, first, f)
    ensures forall p :: p in t.of || p in u ==> first <= p < TOP && p !in f
    ensures forall p :: p in u ==> p !in t.of
  {
  }

  /** After deallocuvm the space is the one that allocuvm began with. */
  lemma Undo(m0: seq<Page>, f0: seq<nat>, t0: Tables, u0: map<nat, nat>, m: seq<Page>, f: seq<nat>, t: Tables,
             u: map<nat, nat>, m': seq<Page>, f': seq<nat>, root: nat, first: nat, lo: nat, v: nat, hi: nat)
    requires lo <= v <= hi && SpaceOk(m0, root, t0, u0, first, f0) && Unmapped(m0, t0, lo, hi - lo)
    requires SpaceOk(m, root, t, u, first, f) && Conserved(m0, f0, t0, u0, m, f, t, u)
    requires Grown(m0, t0, m, t, lo, v - lo) && New(u0, u, lo, v)
    requires Emptied(m, f, m', f', t, CutPages(u, lo, hi)) && CutMap(m, m', t, lo, hi)
    ensures Cut(u, lo, hi) == u0 && Conserved(m0, f0, t0, u0, m', f', t, u0) && Grown(m0, t0, m', t, lo, 0)
  {
    UndoUser(m0, f0, t0, u0, u, root, first, lo, v, hi);
    UndoImage(m, f, t, u, m', f', root, first, lo, hi);
    SpaceOwned(m, root, t, u, first, f);
    UsedNotFree(m, root, t, u, first, f);
    UsedNotFree(m0, root, t0, u0, first, f0);
    hide Entry, Tree, User, Owned, CutMap, Cut, SpaceOk;
    forall x: nat | x < USERTOP ensures Image(m', t, x) == Image(m0, t0, x) {
      if lo <= x < hi { assert !Present(Entry(m0, t0, x)); }
    }
    hide Image, Grown;
    UndoPlaces(m0, f0, t0, u0, m, f, t, u, m', f', first, lo, v, hi);
    assert Grown(m0, t0, m', t, lo, 0) by { GrownSame(m0, t0, m', t, lo); }
  }

  lemma GrownSame(m0: seq<Page>, t0: Tables, m: seq<Page>, t: Tables, lo: nat)
    requires forall x: nat :: x < USERTOP ==> Image(m, t, x) == Image(m0, t0, x)
    ensures Grown(m0, t0, m, t, lo, 0)
  {
  }

  lemma UndoPlaces(m0: seq<Page>, f0: seq<nat>, t0: Tables, u0: map<nat, nat>, m: seq<Page>, f: seq<nat>, t: Tables,
                   u: map<nat, nat>, m': seq<Page>, f': seq<nat>, first: nat, lo: nat, v: nat, hi: nat)
    requires Conserved(m0, f0, t0, u0, m, f, t, u) && New(u0, u, lo, v) && v <= hi
    requires Emptied(m, f, m', f', t, CutPages(u, lo, hi)) && forall p :: p in u0 ==> !(lo <= u0[p] < hi)
    requires forall p :: p in u ==> p !in t.of && p !in f
    requires forall p :: p in u0 ==> p !in t0.of && p !in f0
    ensures Conserved(m0, f0, t0, u0, m', f', t, u0)
  {
  }

  lemma UndoUser(m0: seq<Page>, f0: seq<nat>, t0: Tables, u0: map<nat, nat>, u: map<nat, nat>, root: nat, first: nat,
                 lo: nat, v: nat, hi: nat)
    requires lo <= v <= hi && New(u0, u, lo, v)
    requires SpaceOk(m0, root, t0, u0, first, f0) && Unmapped(m0, t0, lo, hi - lo)
    ensures Cut(u, lo, hi) == u0 && forall p :: p in u0 ==> !(lo <= u0[p] < hi)
  {
  }

  lemma UndoImage(m: seq<Page>, f: seq<nat>, t: Tables, u: map<nat, nat>, m': seq<Page>, f': seq<nat>, root: nat,
                  first: nat, lo: nat, hi: nat)
    requires SpaceOk(m, root, t, u, first, f)
    requires Emptied(m, f, m', f', t, CutPages(u, lo, hi)) && CutMap(m, m', t, lo, hi)
    ensures forall x: nat :: x < USERTOP ==> Image(m', t, x) == if lo <= x < hi then None else Image(m, t, x)
  {
    SpaceOwned(m, root, t, u, first, f);
    hide Entry, Frame, SpaceOk, Owned;
    forall x: nat | x < USERTOP ensures Image(m', t, x) == if lo <= x < hi then None else Image(m, t, x) {
      if Present(Entry(m, t, x)) { UserPage(m, root, t, u, first, f, x); }
    }
  }

  // ---- copyuvm -------------------------------------------------------------------------------------

  /** The first n user pages read as they do in the parent, and there are no others. */
  ghost predicate Copied(m0: seq<Page>, t0: Tables, m: seq<Page>, t: Tables, n: nat) {
    forall v: nat :: v < USERTOP ==> Image(m, t, v) == if v < n then Image(m0, t0, v) else None
  }

  ghost predicate KernelPartOf(m: seq<Page>, t: Tables, kmap: seq<Range>)
    requires ValidKmap(kmap)
  {
    forall x: nat :: USERTOP <= x ==> Entry(m, t, x) == Kernel(kmap, x)
  }

  /** Taking free pages leaves an address space alone. */
  lemma StillThere(m0: seq<Page>, f0: seq<nat>, m: seq<Page>, f: seq<nat>, ps: set<nat>,
                   root: nat, t: Tables, user: map<nat, nat>, first: nat)
    requires SpaceOk(m0, root, t, user, first, f0) && Took(m0, f0, m, f, ps)
    ensures SpaceOk(m, root, t, user, first, f)
    ensures forall v: nat :: v < USERTOP ==> Image(m, t, v) == Image(m0, t, v) && Entry(m, t, v) == Entry(m0, t, v)
  {
    UsedNotFree(m0, root, t, user, first, f0);
    SpaceOwned(m0, root, t, user, first, f0);
    assert forall p :: p in t.of || p in user ==> m[p] == m0[p] && p !in f;
    TreeFrame(m0, m, root, t);
    SpaceFrame(m0, m, root, t, user, first, f0, f);
  }

  /** What a new address space of n user pages takes: tables and pages. */
  ghost function NeedFor(kmap: seq<Range>, n: nat): nat { |KernelKeys(kmap) + Paths(0, n)| + n }

  lemma NeedKernel(kmap: seq<Range>, n: nat)
    ensures |KernelKeys(kmap)| <= NeedFor(kmap, n)
  {
    hide KernelKeys, Paths;
    FewerKeys(KernelKeys(kmap), KernelKeys(kmap) + Paths(0, n));
  }

  /** What more is needed for the pages after the first lo. */
  lemma NeedMore(kmap: seq<Range>, have: set<Key>, lo: nat, n: nat)
    requires have == KernelKeys(kmap) + Paths(0, lo)
    ensures NeedFor(kmap, lo + n) == |have| + lo + Wanted(have, lo, n)
    ensures KernelKeys(kmap) + Paths(0, lo + n) == have + Paths(lo, n)
  {
    hide KernelKeys, Paths;
    PathsCat(0, lo, n);
    assert KernelKeys(kmap) + Paths(0, lo + n) == have + Paths(lo, n);
    AddedAll(have, Paths(lo, n));
    KeysTaken(have, have + Paths(lo, n), Paths(lo, n), true);
  }

  /** The child when its first i pages are there. */
  ghost predicate Copying(m0: seq<Page>, f0: seq<nat>, t0: Tables, m: seq<Page>, f: seq<nat>, t: Tables,
                          u: map<nat, nat>, kmap: seq<Range>, i: nat)
    requires ValidKmap(kmap)
  {
    && Took(m0, f0, m, f, t.of.Keys + u.Keys) && Copied(m0, t0, m, t, i) && KernelPartOf(m, t, kmap)
    && (forall p :: p in u ==> u[p] < i)
    && t.at.Keys == KernelKeys(kmap) + Paths(0, i) && |u.Keys| == i
  }

  lemma CopyStart(m0: seq<Page>, f0: seq<nat>, t0: Tables, m: seq<Page>, t: Tables, kmap: seq<Range>, root: nat,
                  first: nat, f: seq<nat>)
    requires ValidKmap(kmap) && KernelMap(m, t, kmap) && SpaceOk(m, root, t, map[], first, f)
    requires Took(m0, f0, m, f, t.of.Keys) && t.at.Keys == KernelKeys(kmap)
    ensures Copying(m0, f0, t0, m, f, t, map[], kmap, 0)
  {
    assert Copied(m0, t0, m, t, 0) && KernelPartOf(m, t, kmap);
    hide Took, SpaceOk, Copied, KernelPartOf, KernelKeys, KernelMap;
    var none: map<nat, nat> := map[];
    assert t.of.Keys + none.Keys == t.of.Keys;
    assert KernelKeys(kmap) + Paths(0, 0) == KernelKeys(kmap);
  }

  /** The parent is as it was. */
  lemma ParentThere(m0: seq<Page>, f0: seq<nat>, t0: Tables, m: seq<Page>, f: seq<nat>, t: Tables, u: map<nat, nat>,
                    kmap: seq<Range>, i: nat, root: nat, user: map<nat, nat>, first: nat)
    requires ValidKmap(kmap) && Copying(m0, f0, t0, m, f, t, u, kmap, i) && SpaceOk(m0, root, t0, user, first, f0)
    ensures SpaceOk(m, root, t0, user, first, f) && Owned(m, root, t0, first, f)
    ensures forall v: nat :: v < USERTOP ==> Image(m, t0, v) == Image(m0, t0, v) && Entry(m, t0, v) == Entry(m0, t0, v)
  {
    hide Took, Copied, KernelPartOf, SpaceOk, Owned, KernelKeys, Paths, Entry, Image;
    StillThere(m0, f0, m, f, t.of.Keys + u.Keys, root, t0, user, first);
    SpaceOwned(m, root, t0, user, first, f);
  }

  lemma ChildFree(m0: seq<Page>, f0: seq<nat>, t0: Tables, m: seq<Page>, f: seq<nat>, t: Tables, u: map<nat, nat>,
                  kmap: seq<Range>, i: nat, d: nat, first: nat)
    requires ValidKmap(kmap) && Copying(m0, f0, t0, m, f, t, u, kmap, i) && i < USERTOP
    requires SpaceOk(m, d, t, u, first, f)
    ensures !Present(Entry(m, t, i))
  {
    SeenPresent(m, d, t, u, first, f, i);
    hide SpaceOk, Entry, Present, Image, Took, KernelPartOf, KernelKeys, Paths;
  }

  lemma CopyDone(m0: seq<Page>, h0: nat, f0: seq<nat>, t0: Tables, m: seq<Page>, h: nat, f: seq<nat>, t: Tables,
                 u: map<nat, nat>, kmap: seq<Range>, i: nat, d: nat, first: nat)
    requires ValidKmap(kmap) && Copying(m0, f0, t0, m, f, t, u, kmap, i) && SpaceOk(m, d, t, u, first, f)
    requires FreeList(m0, h0, f0, first) && FreeList(m, h, f, first)
    ensures |f0| == |f| + NeedFor(kmap, i)
    ensures Took(m0, f0, m, f, t.of.Keys + u.Keys) && Copied(m0, t0, m, t, i) && KernelPartOf(m, t, kmap)
    ensures t.at.Keys == KernelKeys(kmap) + Paths(0, i) && |u.Keys| == i
  {
    hide Took, Copied, KernelPartOf, FreeList, SpaceOk, KernelKeys, Paths;
    SpaceTaken(m0, h0, f0, m, h, f, t, u, d, first);
  }

  /** The space is all that has been taken. */
  lemma SpaceTaken(m0: seq<Page>, h0: nat, f0: seq<nat>, m: seq<Page>, h: nat, f: seq<nat>, t: Tables,
                   u: map<nat, nat>, root: nat, first: nat)
    requires FreeList(m0, h0, f0, first) && FreeList(m, h, f, first) && Took(m0, f0, m, f, t.of.Keys + u.Keys)
    requires SpaceOk(m, root, t, u, first, f)
    ensures |f0| == |f| + |t.at.Keys| + |u.Keys|
  {
    ListDistinct(m0, h0, f0, first);
    ListDistinct(m, h, f, first);
    TableCount(t, root);
    hide FreeList, Tree, User;
    TwoSets(t.of.Keys, u.Keys);
    CountPages(f0, {}, f, t.of.Keys + u.Keys);
  }

  lemma CopyShort(m0: seq<Page>, h0: nat, f0: seq<nat>, t0: Tables, m: seq<Page>, h: nat, f: seq<nat>, t: Tables,
                  u: map<nat, nat>, kmap: seq<Range>, i: nat, n: nat, d: nat, first: nat)
    requires ValidKmap(kmap) && Copying(m0, f0, t0, m, f, t, u, kmap, i) && SpaceOk(m, d, t, u, first, f)
    requires FreeList(m0, h0, f0, first) && FreeList(m, h, f, first)
    requires i < n && |f| < Wanted(t.at.Keys, i, 1)
    ensures |f0| < NeedFor(kmap, n)
  {
    hide Took, Copied, KernelPartOf, FreeList, SpaceOk, KernelKeys, Paths, Wanted, NeedFor;
    SpaceTaken(m0, h0, f0, m, h, f, t, u, d, first);
    NeedMore(kmap, t.at.Keys, i, 1);
    NeedLess(kmap, i + 1, n);
  }

  lemma NeedLess(kmap: seq<Range>, n: nat, n': nat)
    requires n <= n'
    ensures NeedFor(kmap, n) <= NeedFor(kmap, n')
  {
    hide KernelKeys, Paths;
    PathsWithin(0, n, n');
    FewerKeys(KernelKeys(kmap) + Paths(0, n), KernelKeys(kmap) + Paths(0, n'));
  }

  lemma CopyUndone(m0: seq<Page>, f0: seq<nat>, t0: Tables, m: seq<Page>, f: seq<nat>, t: Tables, u: map<nat, nat>,
                   m': seq<Page>, t': Tables, kmap: seq<Range>, i: nat, q: nat, d: nat, first: nat)
    requires ValidKmap(kmap) && Copying(m0, f0, t0, m, f, t, u, kmap, i)
    requires Conserved(m, f, t, u, m', Unused(q), t', u) && SpaceOk(m', d, t', u, first, Unused(q))
    ensures Took(m0, f0, m', Unused(q), t'.of.Keys + u.Keys) && forall p :: p in u ==> u[p] < i
  {
    hide Took, Copied, KernelPartOf, SpaceOk, Conserved, KernelKeys, Paths, Unused;
    TookTwice(m0, f0, m, f, t, u, m', Unused(q), t', u, d, first);
  }

  lemma CopyMore(m0: seq<Page>, f0: seq<nat>, t0: Tables, m: seq<Page>, f: seq<nat>, t: Tables, u: map<nat, nat>,
                 m': seq<Page>, f': seq<nat>, t': Tables, kmap: seq<Range>, i: nat, q: nat, flags: nat, page: Page,
                 d: nat, first: nat)
    requires ValidKmap(kmap) && Copying(m0, f0, t0, m, f, t, u, kmap, i) && q !in u && i < USERTOP
    requires flags % 2 == 1 && flags < PGSIZE && Image(m0, t0, i) == Some((flags, page))
    requires PageAdded(m, t, m', t', i, q, flags, page) && Added(t.at.Keys, t'.at.Keys, Paths(i, 1), true)
    requires Conserved(m, f, t, u, m', f', t', u[q := i]) && SpaceOk(m', d, t', u[q := i], first, f')
    ensures Copying(m0, f0, t0, m', f', t', u[q := i], kmap, i + 1)
  {
    hide Took, Copied, KernelPartOf, SpaceOk, Conserved, KernelKeys, Paths, PageAdded, Image, NeedFor, Wanted;
    TookTwice(m0, f0, m, f, t, u, m', f', t', u[q := i], d, first);
    CopiedMore(m0, t0, m, t, m', t', kmap, i, q, flags, page);
    NeedMore(kmap, t.at.Keys, i, 1);
    OneMore(u, q, i);
  }

  lemma ParentPage(m0: seq<Page>, m: seq<Page>, root: nat, t: Tables, user: map<nat, nat>, first: nat, f: seq<nat>,
                   v: nat, pg: nat)
    requires SpaceOk(m, root, t, user, first, f) && v < USERTOP && Present(Entry(m0, t, v))
    requires Entry(m, t, v) == Entry(m0, t, v) && Image(m, t, v) == Image(m0, t, v)
    requires if pg == 0 then KeyAt(0, v) !in t.at else KeyAt(0, v) in t.at && pg == t.at[KeyAt(0, v)]
    ensures 0 < pg < TOP == |m|
    ensures var w := m[pg][PX(0, v)];
      && w == Entry(m, t, v) && Present(w) && Frame(w) < TOP && Flags(w) % 2 == 1 && Flags(w) < PGSIZE
      && Image(m0, t, v) == Some((Flags(w), m[Frame(w)]))
  {
    hide SpaceOk, Owned, KeyAt, PX, Present;
    UserPage(m, root, t, user, first, f, v);
    SpaceOwned(m, root, t, user, first, f);
    NoEntry(m, t, v);
    if pg != 0 { InTree(m, root, t, KeyAt(0, v)) by { OwnedTree(m, root, t, first, f); } }
    OddFlags(Entry(m, t, v));
  }

  lemma OddFlags(w: nat)
    ensures Present(w) ==> Flags(w) % 2 == 1 && w != 0
    ensures Flags(w) < PGSIZE
  {
    assert w == 4096 * (w / 4096) + w % 4096;
  }

  lemma TookTwice(m0: seq<Page>, f0: seq<nat>, m: seq<Page>, f: seq<nat>, t: Tables, u: map<nat, nat>,
                  m': seq<Page>, f': seq<nat>, t': Tables, u': map<nat, nat>, root: nat, first: nat)
    requires Took(m0, f0, m, f, t.of.Keys + u.Keys) && Conserved(m, f, t, u, m', f', t', u')
    requires SpaceOk(m', root, t', u', first, f')
    ensures Took(m0, f0, m', f', t'.of.Keys + u'.Keys)
  {
  }

  lemma AfterGiveBack(m: seq<Page>, f: seq<nat>, m': seq<Page>, f': seq<nat>, root: nat, t: Tables, u: map<nat, nat>,
                      first: nat, q: nat, m0: seq<Page>, f0: seq<nat>)
    requires SpaceOk(m, root, t, u, first, [q] + f) && f' == [q] + f
    requires |m'| == TOP && forall p: nat :: p < TOP && p != q ==> m'[p] == m[p]
    requires Took(m0, f0, m, [q] + f, t.of.Keys + u.Keys)
    ensures SpaceOk(m', root, t, u, first, f') && Took(m0, f0, m', f', t.of.Keys + u.Keys)
  {
    hide SpaceOk, Image, Owned;
    SpaceOwned(m, root, t, u, first, [q] + f);
    UsedNotFree(m, root, t, u, first, [q] + f);
    assert q in [q] + f;
    SpaceFrame(m, m', root, t, u, first, [q] + f, f');
  }

  lemma CopiedMore(m0: seq<Page>, t0: Tables, m: seq<Page>, t: Tables, m': seq<Page>, t': Tables, kmap: seq<Range>,
                   v: nat, q: nat, flags: nat, page: Page)
    requires Copied(m0, t0, m, t, v) && ValidKmap(kmap) && KernelPartOf(m, t, kmap) && v < USERTOP
    requires flags % 2 == 1 && flags < PGSIZE && Image(m0, t0, v) == Some((flags, page))
    requires PageAdded(m, t, m', t', v, q, flags, page)
    ensures Copied(m0, t0, m', t', v + 1) && KernelPartOf(m', t', kmap)
  {
    PteParts(q, flags);
    hide Pte, Flags, Entry, Image, Kernel;
  }
}
