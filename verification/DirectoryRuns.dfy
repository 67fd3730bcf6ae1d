/** Calls that reach the states in which the counts of LinkCounts go wrong, all of them from the
    file system that mkfs makes. */
module DirectoryRuns {
  import opened LinkCounts
  import opened Directories

  const NINODES := 200
  const SLOTS := 5952     // 186 blocks of 32 entries: a directory is a file

  function DotsOf(d: nat, parent: nat): seq<Dirent> { [Dirent(d, "."), Dirent(parent, "..")] }

  // ---- a directory that has been removed and is still in use -------------------------------------

  lemma RootEntries(es: seq<Dirent>, name: Name)
    requires es == DotsOf(ROOT, ROOT) && name != "." && name != ".."
    ensures Absent(es, name) && Slot(es) == 2
  {
    SlotIs(es, 2);
  }

  lemma ThirdEntry(es: seq<Dirent>, d: nat, name: Name)
    requires es == DotsOf(ROOT, ROOT) + [Dirent(d, name)] && d != 0 && name != "." && name != ".."
    ensures Find(es, name) == 2
  {
    assert es[..2] == DotsOf(ROOT, ROOT);
    FindIs(es, name, 2);
  }

  /** A directory that somebody has open, after its removal. */
  method RemovedDir() returns (t: Dirs, d: nat)
    ensures fresh(t) && t.Valid() && |t.nodes| == NINODES && 0 < d < NINODES
    ensures IsDir(t.nodes[d]) && !Linked(t.nodes[d]) && t.ref[d] == 1 && t.nodes[d].entries == DotsOf(d, ROOT)
    ensures t.nodes[ROOT] == Node(T_DIR, 1, DotsOf(ROOT, ROOT) + [Dirent(0, "")]) && d != ROOT
    ensures forall x :: 0 < x < NINODES && x != d && x != ROOT ==> t.nodes[x].kind == 0
    ensures |t.pending| == NINODES && forall x :: 0 <= x < NINODES ==> t.pending[x] == 0
  {
    hide Ok, Emptied, Refs, Slot, Find, Absent;
    t := new Dirs(NINODES);
    assert Free(t.nodes, 2);
    RootEntries(t.nodes[ROOT].entries, "dir");
    d := t.Create(ROOT, "dir", T_DIR);
    assert t.nodes[ROOT].entries == DotsOf(ROOT, ROOT) + [Dirent(d, "dir")];
    t.Hold(d);
    ThirdEntry(t.nodes[ROOT].entries, d, "dir");
    IsTarget(t.nodes, ROOT, 2, "dir");
    OkSize(t.nodes, t.pending);
    ghost var es := t.nodes[ROOT].entries;
    var r := t.Unlink(ROOT, "dir");
    assert es[2 := Dirent(0, "")] == DotsOf(ROOT, ROOT) + [Dirent(0, "")];
  }

  /** A file made in it has one link and no name. */
  method CreateInRemoved() returns (t: Dirs, i: nat)
    ensures fresh(t) && !t.Valid() && 0 < i < |t.nodes| && t.nodes[i].nlink == 1 && t.nodes[i].kind == T_FILE
  {
    hide Ok, Emptied, Refs, Slot, Find;
    var d: nat;
    t, d := RemovedDir();
    assert Free(t.nodes, if d == 2 then 3 else 2);
    i := t.Create(d, "file", T_FILE);
  }

  /** A link to a file put in it between the halves of sys_link is counted and has no name. */
  method LinkInRemoved() returns (t: Dirs, i: nat)
    ensures fresh(t) && !t.Valid() && 0 < i < |t.nodes| == |t.pending| && t.nodes[i].kind == T_FILE
    ensures t.nodes[i].nlink == 2 && t.pending[i] == 0
  {
    hide Ok, Emptied, Refs, Slot, Find;
    var d: nat;
    t, d := RemovedDir();
    assert Free(t.nodes, if d == 2 then 3 else 2);
    i := t.Create(ROOT, "file", T_FILE);
    assert t.pending[i] == 0 && i != d && i != ROOT;
    var begun := t.LinkBegin(i);
    var ended := t.LinkEnd(i, d, "link");
  }

  // ---- a file with as many links as a short can count ----------------------------------------------

  function Letter(n: nat): char
    requires n < 32
  {
    (65 + n) as char
  }

  function LinkName(j: nat): Name
    requires j < 32768
  {
    [Letter(j / 1024), Letter(j / 32 % 32), Letter(j % 32)]
  }

  lemma {:induction false} LinkNamesDiffer(j: nat, k: nat)
    requires j < 32768 && k < 32768 && LinkName(j) == LinkName(k)
    ensures j == k
  {
    LinkNameDigits(j);
    LinkNameDigits(k);
  }

  lemma {:induction false} LinkNameDigits(j: nat)
    requires j < 32768
    ensures var s := LinkName(j);
      j == 1024 * (s[0] as int - 65) + 32 * (s[1] as int - 65) + (s[2] as int - 65)
  {
  }

  function Links(d: nat, parent: nat, i: nat, n: nat): (es: seq<Dirent>)
    requires n < 32768
    ensures |es| == 2 + n
  {
    DotsOf(d, parent) + seq(n, j requires 0 <= j < n => Dirent(i, LinkName(j)))
  }

  lemma {:induction false} NextLink(d: nat, parent: nat, i: nat, n: nat)
    requires n + 1 < 32768 && d != 0 && parent != 0 && i != 0
    ensures var es := Links(d, parent, i, n);
      Absent(es, LinkName(n)) && Slot(es) == |es| && es + [Dirent(i, LinkName(n))] == Links(d, parent, i, n + 1)
  {
    var es := Links(d, parent, i, n);
    forall k | 2 <= k < |es| ensures es[k].name != LinkName(n) {
      if es[k].name == LinkName(n) { LinkNamesDiffer(k - 2, n); }
    }
    SlotIs(es, |es|);
  }

  /** n links to the file i from the new directory d. */
  method LinkMany(t: Dirs, i: nat, d: nat, parent: nat, n: nat)
    requires t.Valid() && 0 < i < |t.nodes| && t.nodes[i].kind == T_FILE && 0 < d < |t.nodes| && parent != 0
    requires Linked(t.nodes[d]) && t.nodes[d].entries == DotsOf(d, parent)
    requires 0 <= t.nodes[i].nlink && t.nodes[i].nlink + n <= NLINK_MAX
    modifies t
    ensures t.Valid() && t.pending == old(t.pending) && t.ref == old(t.ref)
    ensures t.nodes == Linking(old(t.nodes), i, d, parent, n)
  {
    hide Ok, Emptied, Refs, Slot, Absent;
    OkSize(t.nodes, t.pending);
    Linking0(t.nodes, i, d, parent);
    for j := 0 to n
      invariant t.Valid() && t.pending == old(t.pending) && t.ref == old(t.ref)
      invariant t.nodes == Linking(old(t.nodes), i, d, parent, j)
    {
      NextLink(d, parent, i, j);
      var begun := t.LinkBegin(i);
      var ended := t.LinkEnd(i, d, LinkName(j));
    }
  }

  function Linking(nodes: seq<Node>, i: nat, d: nat, parent: nat, n: nat): seq<Node>
    requires i < |nodes| && d < |nodes| && n < 32768
  {
    nodes[i := nodes[i].(nlink := nodes[i].nlink + n)][d := nodes[d].(entries := Links(d, parent, i, n))]
  }

  lemma Linking0(nodes: seq<Node>, i: nat, d: nat, parent: nat)
    requires i < |nodes| && d < |nodes| && i != d && nodes[d].entries == DotsOf(d, parent)
    ensures Linking(nodes, i, d, parent, 0) == nodes
  {
    assert Links(d, parent, i, 0) == DotsOf(d, parent);
  }

  function DirName(k: nat): Name
    requires k < 32
  {
    [Letter(k)]
  }

  /** Six directories of 5461 links each, and one link more in the root. */
  method MaxLinks() returns (t: Dirs, i: nat)
    ensures fresh(t) && t.Valid() && |t.nodes| == |t.pending| == NINODES && 0 < i < NINODES
    ensures t.nodes[i].kind == T_FILE && t.nodes[i].nlink == NLINK_MAX
    ensures forall x :: 0 <= x < NINODES ==> t.pending[x] == 0 && |t.nodes[x].entries| <= SLOTS
  {
    hide Ok, Emptied, Refs, Slot, Links;
    t := new Dirs(NINODES);
    OkSize(t.nodes, t.pending);
    assert Free(t.nodes, 2);
    RootEntries(t.nodes[ROOT].entries, "file");
    i := t.Create(ROOT, "file", T_FILE);
    assert i == 2;
    for k := 0 to 6
      invariant t.Valid() && |t.nodes| == |t.pending| == NINODES && |t.ref| == NINODES
      invariant t.nodes[i].kind == T_FILE && t.nodes[i].nlink == 1 + 5461 * k
      invariant forall x :: 0 <= x < NINODES ==> t.pending[x] == 0 && |t.nodes[x].entries| <= SLOTS
      invariant forall x :: 3 + k <= x < NINODES ==> t.nodes[x].kind == 0
      invariant t.nodes[ROOT].kind == T_DIR && t.nodes[ROOT].nlink == 1 + k && |t.nodes[ROOT].entries| == 3 + k
      invariant forall j :: 0 <= j < 3 + k ==> t.nodes[ROOT].entries[j].inum != 0
      invariant forall m :: k <= m < 6 ==> Absent(t.nodes[ROOT].entries, DirName(m))
    {
      assert Free(t.nodes, 3 + k);
      SlotIs(t.nodes[ROOT].entries, 3 + k);
      var d := t.Create(ROOT, DirName(k), T_DIR);
      LinkMany(t, i, d, ROOT, 5461);
    }
  }

  /** One link more, and the count is negative. */
  method LinkOnTop() returns (t: Dirs, i: nat)
    ensures fresh(t) && !t.Valid() && 0 < i < |t.nodes| && t.nodes[i].nlink == -NLINK_MAX - 1
  {
    hide Ok, Emptied, Refs;
    t, i := MaxLinks();
    var begun := t.LinkBegin(i);
  }
}
