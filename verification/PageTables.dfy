/** Four-level page tables over physical memory (vm.c, mmu.h), as values: what a table tree
    means as a map from virtual to physical pages, and which physical pages it is made of. */
module PageTables {
  const ENTRIES := 512
  const PGSIZE := 4096
  const TOP := 57344            // PHYSTOP / PGSIZE
  const USERTOP := 0x100000     // sizes are 32-bit: every user page number is below this
  const PTE_P := 1
  const TABLE := 7              // PTE_P | PTE_W | PTE_U, what walkpgdir puts in a directory

  type Page = p: seq<nat> | |p| == ENTRIES witness seq(ENTRIES, _ => 0)

  function ZeroPage(): Page { seq(ENTRIES, _ => 0) }

  predicate Present(w: nat) { w % 2 == 1 }

  function Frame(w: nat): nat { w / PGSIZE }

  function Flags(w: nat): nat { w % PGSIZE }

  /** pa | perm | PTE_P for an aligned pa. */
  function Pte(frame: nat, perm: nat): nat
    requires perm < PGSIZE
  {
    frame * PGSIZE + if perm % 2 == 1 then perm else perm + PTE_P
  }

  function Pow(l: nat): nat
    requires l <= 4
  {
    if l == 0 then 1 else if l == 1 then 512 else if l == 2 then 0x40000
    else if l == 3 then 0x8000000 else 0x1000000000
  }

  /** The index of virtual page v in its level-l table. */
  function PX(l: nat, v: nat): (i: nat)
    requires l <= 3
    ensures i < ENTRIES
  {
    v / Pow(l) % ENTRIES
  }

  /** A table is placed by its level and by the upper bits that lead to it. */
  datatype Key = Key(level: nat, prefix: nat)

  function KeyAt(l: nat, v: nat): Key
    requires l <= 3
  {
    Key(l, v / Pow(l + 1))
  }

  function Child(k: Key, i: nat): Key
    requires 0 < k.level
  {
    Key(k.level - 1, k.prefix * ENTRIES + i)
  }

  function Parent(k: Key): Key { Key(k.level + 1, k.prefix / ENTRIES) }

  lemma Descend(l: nat, v: nat)
    requires 0 < l <= 3
    ensures Child(KeyAt(l, v), PX(l, v)) == KeyAt(l - 1, v)
  {
  }

  lemma ParentOf(k: Key, i: nat)
    requires 0 < k.level && i < ENTRIES
    ensures Parent(Child(k, i)) == k
  {
  }

  lemma ChildOnly(k: Key, i: nat, j: Key, m: nat)
    requires 0 < k.level && 0 < j.level && i < ENTRIES && m < ENTRIES && Child(k, i) == Child(j, m)
    ensures k == j && i == m
  {
  }

  // ---- trees -----------------------------------------------------------------------------------

  /** at: the page of each table; of: the table in each page. */
  datatype Tables = Tables(at: map<Key, nat>, of: map<nat, Key>)

  function Link(t: Tables, c: Key): nat { if c in t.at then t.at[c] * PGSIZE + TABLE else 0 }

  ghost predicate Linked(mem: seq<Page>, t: Tables, k: Key)
    requires 0 < k.level && k in t.at && t.at[k] < |mem|
  {
    forall i :: 0 <= i < ENTRIES ==> mem[t.at[k]][i] == Link(t, Child(k, i))
  }

  ghost predicate Placed(t: Tables, root: nat) {
    && Key(3, 0) in t.at && t.at[Key(3, 0)] == root
    && (forall k :: k in t.at ==>
          && k.level <= 3 && (k.level == 3 ==> k.prefix == 0) && (k.level < 3 ==> Parent(k) in t.at)
          && t.at[k] in t.of && t.of[t.at[k]] == k)
    && (forall p :: p in t.of ==> 0 < p < TOP && t.of[p] in t.at && t.at[t.of[p]] == p)
  }

  /** The pages of t hold a table tree under root. */
  ghost predicate Tree(mem: seq<Page>, root: nat, t: Tables) {
    && |mem| == TOP && Placed(t, root)
    && (forall k :: k in t.at && 0 < k.level ==> Linked(mem, t, k))
  }

  /** The tree as a map: the entry for virtual page v, 0 where no table reaches. */
  function Entry(mem: seq<Page>, t: Tables, v: nat): nat {
    var k := KeyAt(0, v);
    if k in t.at && t.at[k] < |mem| then mem[t.at[k]][PX(0, v)] else 0
  }

  // ---- one new table -----------------------------------------------------------------------------

  function AddTable(t: Tables, c: Key, q: nat): Tables { Tables(t.at[c := q], t.of[q := c]) }

  /** The memory after walkpgdir has put a zeroed table q under table k. */
  function LinkIn(mem: seq<Page>, p: nat, i: nat, q: nat): (m: seq<Page>)
    requires p < |mem| && q < |mem| && i < ENTRIES
    ensures |m| == |mem|
  {
    var zeroed := mem[q := ZeroPage()];
    zeroed[p := zeroed[p][i := q * PGSIZE + TABLE]]
  }

  lemma AddTree(mem: seq<Page>, root: nat, t: Tables, k: Key, i: nat, q: nat)
    requires Tree(mem, root, t) && k in t.at && 0 < k.level && i < ENTRIES
    requires Child(k, i) !in t.at && 0 < q < TOP && q !in t.of
    ensures Tree(LinkIn(mem, t.at[k], i, q), root, AddTable(t, Child(k, i), q))
  {
    hide ZeroPage, Placed, LinkIn, AddTable, Linked, Link;
    var c := Child(k, i);
    var t', m' := AddTable(t, c, q), LinkIn(mem, AtOf(t, root, k), i, q);
    AddPlaced(root, t, k, i, q);
    assert |m'| == TOP;
    forall j | j in t'.at && 0 < j.level ensures AtOf(t', root, j) < TOP && Linked(m', t', j) {
      var p := AtOf(t', root, j);
      forall n | 0 <= n < ENTRIES ensures m'[p][n] == Link(t', Child(j, n)) {
        AddWord(mem, root, t, k, i, q, j, n);
      }
      AllLinked(m', root, t', j, p);
    }
  }

  /** The page of a placed table. */
  ghost function AtOf(t: Tables, root: nat, k: Key): (p: nat)
    requires Placed(t, root) && k in t.at
    ensures p == t.at[k] && 0 < p < TOP && p in t.of
  {
    t.at[k]
  }

  lemma AllLinked(mem: seq<Page>, root: nat, t: Tables, j: Key, p: nat)
    requires j in t.at && 0 < j.level && p == t.at[j] < |mem|
    requires forall n :: 0 <= n < ENTRIES ==> mem[p][n] == Link(t, Child(j, n))
    ensures Linked(mem, t, j)
  {
  }

  lemma AddPlaced(root: nat, t: Tables, k: Key, i: nat, q: nat)
    requires Placed(t, root) && k in t.at && 0 < k.level && i < ENTRIES
    requires Child(k, i) !in t.at && 0 < q < TOP && q !in t.of
    ensures Placed(AddTable(t, Child(k, i), q), root)
  {
    ParentOf(k, i);
    hide Parent, Child;
  }

  lemma AddWord(mem: seq<Page>, root: nat, t: Tables, k: Key, i: nat, q: nat, j: Key, n: nat)
    requires Tree(mem, root, t) && k in t.at && 0 < k.level && i < ENTRIES
    requires Child(k, i) !in t.at && 0 < q < TOP && q !in t.of
    requires var t' := AddTable(t, Child(k, i), q); j in t'.at && 0 < j.level && n < ENTRIES
    ensures var t' := AddTable(t, Child(k, i), q);
      t'.at[j] < TOP && LinkIn(mem, t.at[k], i, q)[t'.at[j]][n] == Link(t', Child(j, n))
  {
    var c := Child(k, i);
    if j == c {
      if Child(c, n) in t.at { ParentOf(c, n); }
      assert Child(c, n) != c;
    } else {
      assert Linked(mem, t, j);
      assert mem[t.at[j]][n] == Link(t, Child(j, n));
      if Child(j, n) == c { ChildOnly(j, n, k, i); }
    }
  }

  lemma AddEntry(mem: seq<Page>, root: nat, t: Tables, k: Key, i: nat, q: nat, v: nat)
    requires Tree(mem, root, t) && k in t.at && 0 < k.level && i < ENTRIES
    requires Child(k, i) !in t.at && 0 < q < TOP && q !in t.of
    ensures Entry(LinkIn(mem, t.at[k], i, q), AddTable(t, Child(k, i), q), v) == Entry(mem, t, v)
  {
    var z := KeyAt(0, v);
    assert Child(k, i) == z ==> ZeroPage()[PX(0, v)] == 0;
    if z in t.at { assert t.at[z] != q && t.at[z] != t.at[k]; }
  }

  // ---- one new mapping ---------------------------------------------------------------------------

  function SetEntry(mem: seq<Page>, t: Tables, v: nat, w: nat): (m: seq<Page>)
    requires KeyAt(0, v) in t.at && t.at[KeyAt(0, v)] < |mem|
    ensures |m| == |mem|
  {
    var p := t.at[KeyAt(0, v)];
    mem[p := mem[p][PX(0, v) := w]]
  }

  lemma SetTree(mem: seq<Page>, root: nat, t: Tables, v: nat, w: nat)
    requires Tree(mem, root, t) && KeyAt(0, v) in t.at
    ensures Tree(SetEntry(mem, t, v, w), root, t)
  {
  }

  lemma SetReads(mem: seq<Page>, root: nat, t: Tables, v: nat, w: nat, x: nat)
    requires Tree(mem, root, t) && KeyAt(0, v) in t.at
    ensures Entry(SetEntry(mem, t, v, w), t, x) == if x == v then w else Entry(mem, t, x)
  {
    var k, z := KeyAt(0, v), KeyAt(0, x);
    assert z in t.at && t.at[z] == t.at[k] ==> z == k;
    if z == k && PX(0, x) == PX(0, v) { assert x == z.prefix * 512 + PX(0, x); }
  }

  /** A tree reads only its own pages. */
  lemma TreeFrame(mem: seq<Page>, mem': seq<Page>, root: nat, t: Tables)
    requires Tree(mem, root, t) && |mem'| == TOP && forall p :: p in t.of ==> mem'[p] == mem[p]
    ensures Tree(mem', root, t) && forall v: nat :: Entry(mem', t, v) == Entry(mem, t, v)
  {
  }

  // ---- the tables under a table ------------------------------------------------------------------

  predicate Below(k: Key, c: Key)
    requires k.level <= 3 && c.level <= 3
  {
    k.level <= c.level && k.prefix / Pow(c.level - k.level) == c.prefix
  }

  /** The slot of c through which k is reached. */
  function Via(k: Key, c: Key): (i: nat)
    requires k.level < c.level <= 3
    ensures i < ENTRIES
  {
    k.prefix / Pow(c.level - k.level - 1) % ENTRIES
  }

  lemma BelowChild(k: Key, c: Key, i: nat)
    requires k.level <= 3 && 0 < c.level <= 3 && i < ENTRIES
    ensures Below(k, Child(c, i)) <==> Below(k, c) && k != c && Via(k, c) == i
  {
    if k.level < c.level { DivStep(k.prefix, c.level - k.level, c.prefix, i); }
  }

  lemma DivStep(x: nat, d: nat, y: nat, i: nat)
    requires 1 <= d <= 3 && i < ENTRIES
    ensures x / Pow(d - 1) == y * ENTRIES + i <==> x / Pow(d) == y && x / Pow(d - 1) % ENTRIES == i
  {
  }

  lemma BelowSame(k: Key, c: Key)
    requires k.level == c.level <= 3
    ensures Below(k, c) <==> k == c
  {
  }

  /** Every table's ancestors are in the tree. */
  lemma {:induction false} AncestorIn(t: Tables, root: nat, k: Key, c: Key)
    requires Placed(t, root) && k in t.at && c.level <= 3 && Below(k, c)
    ensures c in t.at
    decreases c.level - k.level
  {
  }

  lemma {:induction false} AllBelowRoot(t: Tables, root: nat, k: Key)
    requires Placed(t, root) && k in t.at
    ensures Below(k, Key(3, 0))
    decreases 3 - k.level
  {
  }

  // ---- the tables that a range of pages needs ----------------------------------------------------

  /** The tables on the way to page v. */
  function Path(v: nat): set<Key> { {KeyAt(0, v), KeyAt(1, v), KeyAt(2, v), KeyAt(3, v)} }

  /** Those for the n pages from v on. */
  function Paths(v: nat, n: nat): set<Key> { if n == 0 then {} else Paths(v, n - 1) + Path(v + n - 1) }

  lemma InPath(l: nat, v: nat)
    requires l <= 3
    ensures KeyAt(l, v) in Path(v)
  {
  }

  lemma {:induction false} PathsWithin(v: nat, n: nat, m: nat)
    requires n <= m
    ensures Paths(v, n) <= Paths(v, m)
  {
    hide Path;
    if n < m { PathsWithin(v, n, m - 1); }
  }

  lemma {:induction false} PathsCat(v: nat, n: nat, m: nat)
    ensures Paths(v, n + m) == Paths(v, n) + Paths(v + n, m)
  {
    hide Path;
    if m > 0 { PathsCat(v, n, m - 1); }
  }

  /** A tree that reaches page v has all the tables on the way. */
  lemma PathIn(t: Tables, root: nat, v: nat)
    requires Placed(t, root) && KeyAt(0, v) in t.at
    ensures Path(v) <= t.at.Keys
  {
    assert Parent(KeyAt(0, v)) == KeyAt(1, v) && Parent(KeyAt(1, v)) == KeyAt(2, v);
    assert Parent(KeyAt(2, v)) == KeyAt(3, v);
    hide KeyAt, Parent;
  }

  /** As many pages as tables. */
  lemma TableCount(t: Tables, root: nat)
    requires Placed(t, root)
    ensures |t.of.Keys| == |t.at.Keys|
  {
    hide Parent;
    SameSize(t.at.Keys, t.of.Keys, t.at, t.of);
  }

  lemma {:induction false} SameSize(ks: set<Key>, ps: set<nat>, at: map<Key, nat>, of: map<nat, Key>)
    requires forall k :: k in ks ==> k in at && at[k] in ps && at[k] in of && of[at[k]] == k
    requires forall p :: p in ps ==> p in of && of[p] in ks && of[p] in at && at[of[p]] == p
    ensures |ks| == |ps|
    decreases |ks|
  {
    if ks == {} {
      assert ps == {};
    } else {
      var k :| k in ks;
      SameSize(ks - {k}, ps - {at[k]}, at, of);
    }
  }

  // ---- address spaces ----------------------------------------------------------------------------

  /** user says which virtual page each user frame is mapped at: each frame at one place. */
  ghost predicate User(mem: seq<Page>, t: Tables, user: map<nat, nat>) {
    && (forall v: nat :: v < USERTOP && Present(Entry(mem, t, v)) ==> Mapped(user, Frame(Entry(mem, t, v)), v))
    && (forall p :: p in user ==>
          user[p] < USERTOP && Present(Entry(mem, t, user[p])) && Frame(Entry(mem, t, user[p])) == p)
  }

  predicate Mapped(user: map<nat, nat>, p: nat, v: nat) { p in user && user[p] == v }

  /** Pages of the allocator's range, none of them free. */
  ghost predicate Taken(ps: set<nat>, first: nat, free: seq<nat>) {
    forall p :: p in ps ==> first <= p < TOP && p !in free
  }

  ghost predicate SpaceOk(mem: seq<Page>, root: nat, t: Tables, user: map<nat, nat>, first: nat, free: seq<nat>) {
    && Tree(mem, root, t) && User(mem, t, user)
    && Taken(t.of.Keys, first, free) && Taken(user.Keys, first, free)
    && t.of.Keys !! user.Keys
  }

  datatype Option<T> = None | Some(value: T)

  /** What user code finds at virtual page v: the flags, and the bytes of the page. */
  function Image(mem: seq<Page>, t: Tables, v: nat): Option<(nat, Page)> {
    var w := Entry(mem, t, v);
    if Present(w) && Frame(w) < |mem| then Some((Flags(w), mem[Frame(w)])) else None
  }

  /** What is done to other pages leaves an address space as it was. */
  lemma SpaceFrame(mem: seq<Page>, mem': seq<Page>, root: nat, t: Tables, user: map<nat, nat>,
                   first: nat, free: seq<nat>, free': seq<nat>)
    requires SpaceOk(mem, root, t, user, first, free) && |mem'| == TOP
    requires forall p :: p in t.of || p in user ==> mem'[p] == mem[p] && p !in free'
    ensures SpaceOk(mem', root, t, user, first, free')
    ensures forall v: nat :: v < USERTOP ==> Image(mem', t, v) == Image(mem, t, v)
  {
    hide Tree, Entry, Frame, Present, Image;
    SpaceTree(mem, root, t, user, first, free);
    TreeFrame(mem, mem', root, t);
    assert User(mem', t, user);
    assert forall p :: p in t.of.Keys || p in user.Keys ==> p !in free';
    forall v: nat | v < USERTOP ensures Image(mem', t, v) == Image(mem, t, v) {
      ImageFrame(mem, mem', root, t, user, first, free, v);
    }
  }

  lemma SpaceTree(mem: seq<Page>, root: nat, t: Tables, user: map<nat, nat>, first: nat, free: seq<nat>)
    requires SpaceOk(mem, root, t, user, first, free)
    ensures |mem| == TOP && Tree(mem, root, t)
  {
  }

  lemma ImageFrame(mem: seq<Page>, mem': seq<Page>, root: nat, t: Tables, user: map<nat, nat>, first: nat,
                   free: seq<nat>, v: nat)
    requires SpaceOk(mem, root, t, user, first, free) && |mem'| == |mem| == TOP && v < USERTOP
    requires Entry(mem', t, v) == Entry(mem, t, v) && forall p :: p in user ==> mem'[p] == mem[p]
    ensures Image(mem', t, v) == Image(mem, t, v)
  {
    hide Tree, Entry, Frame, Present;
    var w := Entry(mem, t, v);
    if Present(w) {
      assert Mapped(user, Frame(w), v);
      assert Frame(w) in user.Keys;
    }
  }
}
