/** Directories as lists of entries, and what the nlink field of an inode has to count (the
    directory part of fs.c, and link, unlink and create of sysfile.c). */
module LinkCounts {
  const T_DIR := 1
  const ROOT := 1
  const DIRSIZ := 14
  const NLINK_MAX := 32767

  /** What skipelem cuts out of a path: longer elements lose their ends. */
  type Name = s: string | |s| <= DIRSIZ witness ""

  /** A slot of a directory; one with inum 0 is unused. */
  datatype Dirent = Dirent(inum: nat, name: Name)

  /** An inode; kind 0 is free, and only a directory has entries. */
  datatype Node = Node(kind: nat, nlink: int, entries: seq<Dirent>)

  predicate IsDir(n: Node) { n.kind == T_DIR }

  /** A directory that can be reached: one that has been removed has no links. */
  predicate Linked(n: Node) { IsDir(n) && n.nlink > 0 }

  /** nlink is a short. */
  function Inc(n: int): int { if n == NLINK_MAX then -NLINK_MAX - 1 else n + 1 }

  function Dec(n: int): int { if n == -NLINK_MAX - 1 then NLINK_MAX else n - 1 }

  // ---- counting entries ----------------------------------------------------------------------

  function One(e: Dirent, i: nat): nat { if e.inum == i && e.name != "." then 1 else 0 }

  function Named(es: seq<Dirent>, i: nat): nat {
    if es == [] then 0 else Named(es[..|es| - 1], i) + One(es[|es| - 1], i)
  }

  function Share(n: Node, i: nat): nat { if Linked(n) then Named(n.entries, i) else 0 }

  /** The entries, other than ".", that name inode i in linked directories. */
  function Refs(nodes: seq<Node>, i: nat): nat {
    if nodes == [] then 0 else Refs(nodes[..|nodes| - 1], i) + Share(nodes[|nodes| - 1], i)
  }

  lemma {:induction false} NamedSet(es: seq<Dirent>, k: nat, e: Dirent, i: nat)
    requires k < |es|
    ensures Named(es[k := e], i) == Named(es, i) - One(es[k], i) + One(e, i)
  {
    var n := |es| - 1;
    if k < n {
      NamedSet(es[..n], k, e, i);
      assert es[k := e][..n] == es[..n][k := e];
    } else {
      assert es[k := e][..n] == es[..n];
    }
  }

  lemma {:induction false} RefsSet(nodes: seq<Node>, d: nat, n: Node, i: nat)
    requires d < |nodes|
    ensures Refs(nodes[d := n], i) == Refs(nodes, i) - Share(nodes[d], i) + Share(n, i)
  {
    hide Share;
    var m := |nodes| - 1;
    if d < m {
      RefsSet(nodes[..m], d, n, i);
      assert nodes[d := n][..m] == nodes[..m][d := n];
    } else {
      assert nodes[d := n][..m] == nodes[..m];
    }
  }

  lemma {:induction false} NamedZero(es: seq<Dirent>, i: nat)
    requires forall k :: 0 <= k < |es| ==> One(es[k], i) == 0
    ensures Named(es, i) == 0
  {
    if es != [] { NamedZero(es[..|es| - 1], i); }
  }

  lemma {:induction false} NamedPositive(es: seq<Dirent>, k: nat, i: nat)
    requires k < |es| && One(es[k], i) == 1
    ensures Named(es, i) > 0
  {
    if k < |es| - 1 { NamedPositive(es[..|es| - 1], k, i); }
  }

  /** The slot d, k of a linked directory holds an entry for c. */
  predicate Holds(nodes: seq<Node>, d: nat, k: nat, c: nat) {
    d < |nodes| && Linked(nodes[d]) && k < |nodes[d].entries| && One(nodes[d].entries[k], c) == 1
  }

  lemma {:induction false} RefsZero(nodes: seq<Node>, i: nat)
    requires forall d: nat, k: nat :: !Holds(nodes, d, k, i)
    ensures Refs(nodes, i) == 0
  {
    if nodes != [] {
      var m := |nodes| - 1;
      forall d: nat, k: nat ensures !Holds(nodes[..m], d, k, i) { assert !Holds(nodes, d, k, i); }
      RefsZero(nodes[..m], i);
      if Linked(nodes[m]) {
        forall k | 0 <= k < |nodes[m].entries| ensures One(nodes[m].entries[k], i) == 0 {
          assert !Holds(nodes, m, k, i);
        }
        NamedZero(nodes[m].entries, i);
      }
    }
  }

  lemma {:induction false} RefsPositive(nodes: seq<Node>, d: nat, k: nat, i: nat)
    requires Holds(nodes, d, k, i)
    ensures Refs(nodes, i) > 0
  {
    var m := |nodes| - 1;
    if d < m {
      assert Holds(nodes[..m], d, k, i);
      RefsPositive(nodes[..m], d, k, i);
    } else {
      NamedPositive(nodes[m].entries, k, i);
    }
  }

  // ---- the invariant ---------------------------------------------------------------------------

  /** No two used entries have the same name. */
  predicate NamesUnique(es: seq<Dirent>) {
    forall j, k :: 0 <= j < k < |es| && es[j].inum != 0 && es[k].inum != 0 ==> es[j].name != es[k].name
  }

  /** "." is the directory itself, ".." a linked directory, and the names are distinct. */
  predicate DirOk(nodes: seq<Node>, d: nat)
    requires d < |nodes|
  {
    var es := nodes[d].entries;
    && 2 <= |es| && es[0] == Dirent(d, ".") && es[1].name == ".." && NamesUnique(es)
    && 0 < es[1].inum < |nodes| && Linked(nodes[es[1].inum])
    && forall k :: 0 <= k < |es| ==> es[k].inum < |nodes|
  }

  function Up(n: Node): nat { if |n.entries| > 1 then n.entries[1].inum else 0 }

  /** A directory is named once, in the directory that its ".." names; the root not at all. */
  ghost predicate Homes(nodes: seq<Node>) {
    && (forall d: nat, k: nat, c: nat :: Holds(nodes, d, k, c) ==> AtHome(nodes, d, k, c))
    && (forall d: nat, k: nat, m: nat, c: nat ::
          Holds(nodes, d, k, c) && Holds(nodes, d, m, c) ==> Once(nodes, k, m, c))
    && (forall c: nat :: c < |nodes| && Linked(nodes[c]) && c != ROOT ==> Housed(nodes, c))
  }

  predicate AtHome(nodes: seq<Node>, d: nat, k: nat, c: nat) {
    2 <= k && 0 < c < |nodes| && IsDir(nodes[c]) ==> c != ROOT && Linked(nodes[c]) && Up(nodes[c]) == d
  }

  predicate Once(nodes: seq<Node>, k: nat, m: nat, c: nat) {
    2 <= k && 2 <= m && 0 < c < |nodes| && IsDir(nodes[c]) ==> k == m
  }

  ghost predicate Housed(nodes: seq<Node>, c: nat)
    requires c < |nodes|
  {
    exists k: nat :: 2 <= k && Holds(nodes, Up(nodes[c]), k, c)
  }

  /** pending[i] links to i have been counted by sys_link but not yet entered. */
  ghost predicate Counted(nodes: seq<Node>, pending: seq<nat>) {
    |pending| == |nodes| && forall i :: 0 < i < |nodes| ==> CountedAt(nodes, pending, i)
  }

  ghost predicate CountedAt(nodes: seq<Node>, pending: seq<nat>, i: nat)
    requires i < |nodes| == |pending|
  {
    && (if nodes[i].kind == 0 then Refs(nodes, i) == pending[i] == 0 else nodes[i].nlink == Refs(nodes, i) + pending[i])
    && (IsDir(nodes[i]) ==> pending[i] == 0)
  }

  ghost predicate DirsOk(nodes: seq<Node>) {
    && ROOT < |nodes| && nodes[0].kind == 0 && Linked(nodes[ROOT]) && Up(nodes[ROOT]) == ROOT
    && (forall d :: 0 <= d < |nodes| && Linked(nodes[d]) ==> DirOk(nodes, d))
    && Homes(nodes)
  }

  /** Every inode's nlink is the number of entries that name it, and the directories are a tree. */
  ghost predicate Ok(nodes: seq<Node>, pending: seq<nat>) { DirsOk(nodes) && Counted(nodes, pending) }

  // ---- changing nlink of a file ------------------------------------------------------------------

  lemma {:induction false} RefsSame(nodes: seq<Node>, d: nat, n: Node)
    requires d < |nodes| && forall i: nat :: Share(n, i) == Share(nodes[d], i)
    ensures forall i: nat :: Refs(nodes[d := n], i) == Refs(nodes, i)
  {
    forall i: nat ensures Refs(nodes[d := n], i) == Refs(nodes, i) { RefsSet(nodes, d, n, i); }
  }

  /** A file's node may change freely as far as the directories are concerned. */
  lemma {:induction false} FileNode(nodes: seq<Node>, i: nat, n: Node)
    requires DirsOk(nodes) && 0 < i < |nodes| && !IsDir(nodes[i]) && !IsDir(n)
    ensures DirsOk(nodes[i := n]) && forall c: nat :: Refs(nodes[i := n], c) == Refs(nodes, c)
  {
    var m := nodes[i := n];
    RefsSame(nodes, i, n);
    hide Refs, NamesUnique, One;
    forall d: nat, k: nat, c: nat ensures Holds(m, d, k, c) == Holds(nodes, d, k, c) {}
    assert forall d :: 0 <= d < |m| ==> IsDir(m[d]) == IsDir(nodes[d]) && (IsDir(m[d]) ==> m[d] == nodes[d]);
    SameDirs(nodes, m);
  }

  lemma {:induction false} SameDirs(nodes: seq<Node>, m: seq<Node>)
    requires DirsOk(nodes) && |m| == |nodes| && m[0] == nodes[0]
    requires forall d: nat, k: nat, c: nat :: Holds(m, d, k, c) == Holds(nodes, d, k, c)
    requires forall d :: 0 <= d < |m| ==> IsDir(m[d]) == IsDir(nodes[d]) && (IsDir(m[d]) ==> m[d] == nodes[d])
    ensures DirsOk(m)
  {
    hide Holds, NamesUnique;
    forall d | 0 <= d < |m| && Linked(m[d]) ensures DirOk(m, d) { assert DirOk(nodes, d); }
    assert forall d: nat, k: nat, c: nat :: Holds(m, d, k, c) ==> AtHome(nodes, d, k, c) && AtHome(m, d, k, c);
    assert forall k: nat, j: nat, c: nat :: Once(nodes, k, j, c) ==> Once(m, k, j, c);
    forall c: nat | c < |m| && Linked(m[c]) && c != ROOT ensures Housed(m, c) { assert Housed(nodes, c); }
  }

  lemma {:induction false} LinkStarts(nodes: seq<Node>, pending: seq<nat>, i: nat)
    requires Ok(nodes, pending) && 0 < i < |nodes| && nodes[i].kind != 0 && !IsDir(nodes[i])
    ensures Ok(nodes[i := nodes[i].(nlink := Inc(nodes[i].nlink))], pending[i := pending[i] + 1])
       <==> nodes[i].nlink != NLINK_MAX
  {
    var m, p := nodes[i := nodes[i].(nlink := Inc(nodes[i].nlink))], pending[i := pending[i] + 1];
    FileNode(nodes, i, m[i]);
    hide Refs, DirsOk;
    assert CountedAt(nodes, pending, i);
    forall c | 0 < c < |m| && c != i ensures CountedAt(m, p, c) { assert CountedAt(nodes, pending, c); }
    assert CountedAt(m, p, i) <==> nodes[i].nlink != NLINK_MAX;
  }

  lemma {:induction false} LinkUndone(nodes: seq<Node>, pending: seq<nat>, i: nat)
    requires Ok(nodes, pending) && 0 < i < |nodes| && nodes[i].kind != 0 && !IsDir(nodes[i]) && pending[i] > 0
    ensures Ok(nodes[i := nodes[i].(nlink := Dec(nodes[i].nlink))], pending[i := pending[i] - 1])
  {
    var m, p := nodes[i := nodes[i].(nlink := Dec(nodes[i].nlink))], pending[i := pending[i] - 1];
    FileNode(nodes, i, m[i]);
    hide Refs, DirsOk;
    assert CountedAt(nodes, pending, i);
    forall c | 0 < c < |m| ensures CountedAt(m, p, c) { assert CountedAt(nodes, pending, c); }
  }

  // ---- entering a file in a directory --------------------------------------------------------------

  function PutEntry(es: seq<Dirent>, k: nat, e: Dirent): seq<Dirent>
    requires k <= |es|
  {
    if k < |es| then es[k := e] else es + [e]
  }

  /** Slot k of a directory is free to take the name: dirlink has found neither an entry of
      that name nor an unused slot before k. */
  predicate Vacant(es: seq<Dirent>, k: nat, name: Name) {
    && k <= |es| && (k < |es| ==> es[k].inum == 0)
    && forall j :: 0 <= j < |es| && es[j].inum != 0 ==> es[j].name != name
  }

  predicate Absent(es: seq<Dirent>, name: Name) { forall j :: 0 <= j < |es| && es[j].inum != 0 ==> es[j].name != name }

  /** The first entry of the name. */
  function Find(es: seq<Dirent>, name: Name): (k: nat)
    ensures k <= |es| && Absent(es[..k], name) && (k == |es| <==> Absent(es, name))
    ensures k < |es| ==> es[k].inum != 0 && es[k].name == name
  {
    FindFrom(es, name, 0)
  }

  function FindFrom(es: seq<Dirent>, name: Name, i: nat): (k: nat)
    requires i <= |es| && Absent(es[..i], name)
    ensures i <= k <= |es| && Absent(es[..k], name) && (k == |es| <==> Absent(es, name))
    ensures k < |es| ==> es[k].inum != 0 && es[k].name == name
    decreases |es| - i
  {
    if i == |es| then (assert es[..i] == es; i)
    else if es[i].inum != 0 && es[i].name == name then i
    else (assert es[..i + 1] == es[..i] + [es[i]]; FindFrom(es, name, i + 1))
  }

  /** The first unused slot, or the one behind the last. */
  function Slot(es: seq<Dirent>): (k: nat)
    ensures k <= |es| && (k < |es| ==> es[k].inum == 0) && forall j :: 0 <= j < k ==> es[j].inum != 0
  {
    SlotFrom(es, 0)
  }

  function SlotFrom(es: seq<Dirent>, i: nat): (k: nat)
    requires i <= |es| && forall j :: 0 <= j < i ==> es[j].inum != 0
    ensures i <= k <= |es| && (k < |es| ==> es[k].inum == 0) && forall j :: 0 <= j < k ==> es[j].inum != 0
    decreases |es| - i
  {
    if i == |es| || es[i].inum == 0 then i else SlotFrom(es, i + 1)
  }

  lemma {:induction false} SlotVacant(es: seq<Dirent>, name: Name)
    ensures Absent(es, name) <==> Vacant(es, Slot(es), name)
  {
  }

  lemma {:induction false} SlotIs(es: seq<Dirent>, k: nat)
    requires k <= |es| && (k < |es| ==> es[k].inum == 0) && forall j :: 0 <= j < k ==> es[j].inum != 0
    ensures Slot(es) == k
  {
  }

  lemma {:induction false} FindIs(es: seq<Dirent>, name: Name, k: nat)
    requires k < |es| && es[k].inum != 0 && es[k].name == name && Absent(es[..k], name)
    ensures Find(es, name) == k
  {
    var n := Find(es, name);
    assert forall j :: 0 <= j < n ==> es[..n][j] == es[j];
    assert forall j :: 0 <= j < k ==> es[..k][j] == es[j];
  }

  lemma {:induction false} PutNamed(es: seq<Dirent>, k: nat, e: Dirent, c: nat)
    requires k <= |es| && (k < |es| ==> es[k].inum == 0) && 0 < c
    ensures Named(PutEntry(es, k, e), c) == Named(es, c) + One(e, c)
  {
    if k < |es| { NamedSet(es, k, e, c); } else { assert (es + [e])[..|es|] == es; }
  }

  function Enter(nodes: seq<Node>, d: nat, k: nat, e: Dirent): seq<Node>
    requires d < |nodes| && k <= |nodes[d].entries|
  {
    nodes[d := nodes[d].(entries := PutEntry(nodes[d].entries, k, e))]
  }

  lemma {:induction false} EnterRefs(nodes: seq<Node>, d: nat, k: nat, e: Dirent)
    requires d < |nodes| && Vacant(nodes[d].entries, k, e.name) && Linked(nodes[d])
    ensures forall c: nat :: 0 < c ==> Refs(Enter(nodes, d, k, e), c) == Refs(nodes, c) + One(e, c)
  {
    forall c: nat | 0 < c ensures Refs(Enter(nodes, d, k, e), c) == Refs(nodes, c) + One(e, c) {
      RefsSet(nodes, d, nodes[d].(entries := PutEntry(nodes[d].entries, k, e)), c);
      PutNamed(nodes[d].entries, k, e, c);
    }
  }

  lemma {:induction false} EnterHolds(nodes: seq<Node>, d: nat, k: nat, e: Dirent, x: nat, j: nat, c: nat)
    requires d < |nodes| && Vacant(nodes[d].entries, k, e.name) && 0 < c
    ensures Holds(Enter(nodes, d, k, e), x, j, c)
       <==> Holds(nodes, x, j, c) || (x == d && j == k && Linked(nodes[d]) && One(e, c) == 1)
  {
  }

  lemma {:induction false} EnterDir(nodes: seq<Node>, d: nat, k: nat, e: Dirent, x: nat)
    requires d < |nodes| && Vacant(nodes[d].entries, k, e.name) && DirOk(nodes, d) && 0 < d && e.inum < |nodes|
    requires x < |nodes| && DirOk(nodes, x)
    ensures 2 <= k && e.name != "." && DirOk(Enter(nodes, d, k, e), x)
  {
  }

  /** A new entry for a file keeps the directories in order and adds one to the file's count. */
  lemma {:induction false} FileEntered(nodes: seq<Node>, d: nat, k: nat, e: Dirent)
    requires DirsOk(nodes) && d < |nodes| && Linked(nodes[d]) && Vacant(nodes[d].entries, k, e.name)
    requires 0 < e.inum < |nodes| && !IsDir(nodes[e.inum])
    ensures DirsOk(Enter(nodes, d, k, e))
    ensures forall c: nat :: 0 < c ==> Refs(Enter(nodes, d, k, e), c) == Refs(nodes, c) + if c == e.inum then 1 else 0
  {
    var m := Enter(nodes, d, k, e);
    assert DirOk(nodes, d) && 0 < d;
    EnterDir(nodes, d, k, e, d);
    EnterRefs(nodes, d, k, e);
    SameUp(nodes, d, k, e);
    hide Refs, Vacant, Homes, Linked, IsDir, Up;
    forall x | 0 <= x < |m| && Linked(m[x]) ensures DirOk(m, x) { EnterDir(nodes, d, k, e, x); }
    hide DirOk, Enter;
    forall x: nat, j: nat, c: nat | 0 < c
      ensures Holds(m, x, j, c) <==> Holds(nodes, x, j, c) || (x == d && j == k && c == e.inum)
    {
      EnterHolds(nodes, d, k, e, x, j, c);
    }
    hide Holds;
    FileHomes(nodes, m, d, k, e.inum);
  }

  /** Homes is about directories only: one more entry for a file leaves it. */
  lemma {:induction false} FileHomes(nodes: seq<Node>, m: seq<Node>, d: nat, k: nat, i: nat)
    requires Homes(nodes) && |m| == |nodes| && 0 < i < |nodes| && !IsDir(nodes[i]) && !Linked(nodes[0])
    requires forall c :: 0 <= c < |m| ==>
      Up(m[c]) == Up(nodes[c]) && IsDir(m[c]) == IsDir(nodes[c]) && Linked(m[c]) == Linked(nodes[c])
    requires forall x: nat, j: nat, c: nat :: 0 < c ==>
      (Holds(m, x, j, c) <==> Holds(nodes, x, j, c) || (x == d && j == k && c == i))
    ensures Homes(m)
  {
    hide Holds, Linked, IsDir, Up;
    forall x: nat, j: nat, c: nat | Holds(m, x, j, c) ensures AtHome(m, x, j, c) {
      if 0 < c && Holds(nodes, x, j, c) { assert AtHome(nodes, x, j, c); }
    }
    forall x: nat, j: nat, n: nat, c: nat | Holds(m, x, j, c) && Holds(m, x, n, c) ensures Once(m, j, n, c) {
      if 0 < c < |m| && IsDir(m[c]) { assert Once(nodes, j, n, c); }
    }
    forall c: nat | c < |m| && Linked(m[c]) && c != ROOT ensures Housed(m, c) {
      assert Housed(nodes, c);
      KeepsHouse(nodes, m, c);
    }
  }

  lemma {:induction false} SameUp(nodes: seq<Node>, d: nat, k: nat, e: Dirent)
    requires d < |nodes| && 2 <= k <= |nodes[d].entries|
    ensures var m := Enter(nodes, d, k, e); |m| == |nodes| && forall c :: 0 <= c < |m| ==>
      Up(m[c]) == Up(nodes[c]) && IsDir(m[c]) == IsDir(nodes[c]) && Linked(m[c]) == Linked(nodes[c])
  {
  }

  lemma {:induction false} KeepsHouse(nodes: seq<Node>, m: seq<Node>, c: nat)
    requires c < |nodes| == |m| && Up(m[c]) == Up(nodes[c]) && Housed(nodes, c)
    requires forall k: nat :: Holds(nodes, Up(nodes[c]), k, c) ==> Holds(m, Up(nodes[c]), k, c)
    ensures Housed(m, c)
  {
  }

  /** The end of a successful sys_link. */
  lemma {:induction false} LinkEntered(nodes: seq<Node>, pending: seq<nat>, d: nat, k: nat, e: Dirent)
    requires Ok(nodes, pending) && d < |nodes| && Linked(nodes[d]) && Vacant(nodes[d].entries, k, e.name)
    requires 0 < e.inum < |nodes| && nodes[e.inum].kind != 0 && !IsDir(nodes[e.inum]) && pending[e.inum] > 0
    ensures Ok(Enter(nodes, d, k, e), pending[e.inum := pending[e.inum] - 1])
  {
    var m, p := Enter(nodes, d, k, e), pending[e.inum := pending[e.inum] - 1];
    FileEntered(nodes, d, k, e);
    hide Refs, DirsOk;
    forall c | 0 < c < |m| ensures CountedAt(m, p, c) { assert CountedAt(nodes, pending, c); }
  }

  // ---- create --------------------------------------------------------------------------------------

  /** create for a file: the free inode i gets its kind and one link, then its entry. */
  function NewFile(nodes: seq<Node>, d: nat, k: nat, name: Name, i: nat, kind: nat): seq<Node>
    requires d < |nodes| && i < |nodes| && i != d && k <= |nodes[d].entries|
  {
    Enter(nodes[i := Node(kind, 1, [])], d, k, Dirent(i, name))
  }

  /** A file made in a directory is counted right exactly when the directory is still linked. */
  lemma {:induction false} FileCreated(nodes: seq<Node>, pending: seq<nat>, d: nat, k: nat, name: Name, i: nat,
                                       kind: nat)
    requires Ok(nodes, pending) && d < |nodes| && IsDir(nodes[d]) && Vacant(nodes[d].entries, k, name)
    requires 0 < i < |nodes| && nodes[i].kind == 0 && kind != 0 && kind != T_DIR
    ensures Ok(NewFile(nodes, d, k, name, i, kind), pending) <==> Linked(nodes[d])
  {
    var n, e := nodes[i := Node(kind, 1, [])], Dirent(i, name);
    FileNode(nodes, i, Node(kind, 1, []));
    hide DirsOk, Refs, Linked, IsDir;
    assert CountedAt(nodes, pending, i);
    if Linked(nodes[d]) {
      FileMade(nodes, n, pending, d, k, e, kind);
    } else {
      FileLost(n, pending, d, k, e);
    }
  }

  lemma {:induction false} FileMade(nodes: seq<Node>, n: seq<Node>, pending: seq<nat>, d: nat, k: nat, e: Dirent,
                                    kind: nat)
    requires Counted(nodes, pending) && d < |nodes| && 0 < e.inum < |nodes| && nodes[e.inum].kind == 0 && kind != 0
    requires n == nodes[e.inum := Node(kind, 1, [])] && DirsOk(n) && kind != T_DIR && d != e.inum
    requires forall c: nat :: Refs(n, c) == Refs(nodes, c)
    requires Linked(n[d]) && Vacant(n[d].entries, k, e.name)
    ensures Ok(Enter(n, d, k, e), pending)
  {
    FileEntered(n, d, k, e);
    EnterLinks(n, d, k, e);
    hide Refs, DirsOk, Vacant, Linked, Enter, CountedAt, IsDir;
    var m := Enter(n, d, k, e);
    forall c | 0 < c < |m| ensures CountedAt(m, pending, c) {
      NewFileCount(nodes, n, pending, m, e.inum, kind, c);
    }
  }

  lemma {:induction false} NewFileCount(nodes: seq<Node>, n: seq<Node>, pending: seq<nat>, m: seq<Node>, i: nat,
                                        kind: nat, c: nat)
    requires |m| == |nodes| == |pending| && 0 < c < |m| && i < |m| && n == nodes[i := Node(kind, 1, [])]
    requires CountedAt(nodes, pending, c) && nodes[i].kind == 0 && kind != 0 && kind != T_DIR
    requires m[c].kind == n[c].kind && m[c].nlink == n[c].nlink
    requires Refs(m, c) == Refs(nodes, c) + if c == i then 1 else 0
    ensures CountedAt(m, pending, c)
  {
  }

  /** An entry changes no inode's kind and no nlink. */
  lemma {:induction false} EnterLinks(n: seq<Node>, d: nat, k: nat, e: Dirent)
    requires d < |n| && k <= |n[d].entries|
    ensures var m := Enter(n, d, k, e);
      |m| == |n| && forall c :: 0 <= c < |n| ==> m[c].kind == n[c].kind && m[c].nlink == n[c].nlink
  {
  }

  lemma {:induction false} FileLost(n: seq<Node>, pending: seq<nat>, d: nat, k: nat, e: Dirent)
    requires d < |n| == |pending| && 0 < e.inum < |n| && d != e.inum && n[e.inum].kind != 0 && n[e.inum].nlink == 1
    requires Refs(n, e.inum) == pending[e.inum] == 0 && !Linked(n[d]) && k <= |n[d].entries|
    ensures !Ok(Enter(n, d, k, e), pending)
  {
    var m := Enter(n, d, k, e);
    RefsSame(n, d, m[d]);
    hide DirsOk, Refs;
    assert !CountedAt(m, pending, e.inum);
  }

  /** create for a directory: "." and ".." in the new one, a link more for the parent, the entry. */
  function NewDir(nodes: seq<Node>, d: nat, k: nat, name: Name, i: nat): seq<Node>
    requires d < |nodes| && i < |nodes| && i != d && k <= |nodes[d].entries|
  {
    var n := nodes[i := Node(T_DIR, 1, [Dirent(i, "."), Dirent(d, "..")])];
    Enter(n[d := n[d].(nlink := Inc(n[d].nlink))], d, k, Dirent(i, name))
  }

  /** The new directory is in order, and its parent is, exactly when the parent was still linked
      and its count does not wrap. */
  lemma {:induction false} DirCreated(nodes: seq<Node>, pending: seq<nat>, d: nat, k: nat, name: Name, i: nat)
    requires Ok(nodes, pending) && d < |nodes| && IsDir(nodes[d]) && Vacant(nodes[d].entries, k, name)
    requires 0 < i < |nodes| && nodes[i].kind == 0
    ensures Ok(NewDir(nodes, d, k, name, i), pending) <==> Linked(nodes[d]) && nodes[d].nlink != NLINK_MAX
  {
    if Linked(nodes[d]) && nodes[d].nlink != NLINK_MAX {
      DirMade(nodes, pending, d, k, name, i);
    } else {
      DirLost(nodes, pending, d, k, name, i);
    }
  }

  lemma {:induction false} NewDirHolds(nodes: seq<Node>, d: nat, k: nat, name: Name, i: nat, x: nat, j: nat, c: nat)
    requires d < |nodes| && i < |nodes| && i != d && Vacant(nodes[d].entries, k, name) && 0 < c && name != "."
    requires Linked(nodes[d]) && nodes[d].nlink != NLINK_MAX && !Linked(nodes[i])
    ensures Holds(NewDir(nodes, d, k, name, i), x, j, c)
       <==> Holds(nodes, x, j, c) || (x == d && j == k && c == i) || (x == i && j == 1 && c == d)
  {
  }

  lemma {:induction false} NewDirRefs(nodes: seq<Node>, d: nat, k: nat, name: Name, i: nat, c: nat)
    requires d < |nodes| && i < |nodes| && i != d && Vacant(nodes[d].entries, k, name) && 0 < c && name != "."
    requires Linked(nodes[d]) && nodes[d].nlink != NLINK_MAX && !Linked(nodes[i])
    ensures Refs(NewDir(nodes, d, k, name, i), c)
         == Refs(nodes, c) + (if c == i then 1 else 0) + (if c == d then 1 else 0)
  {
    var n1 := nodes[i := Node(T_DIR, 1, [Dirent(i, "."), Dirent(d, "..")])];
    var n2 := n1[d := n1[d].(nlink := Inc(n1[d].nlink))];
    RefsSet(nodes, i, n1[i], c);
    RefsSet(n1, d, n2[d], c);
    EnterRefs(n2, d, k, Dirent(i, name));
    hide Refs, Enter, Vacant;
    TwoNamed(i, d, c);
    hide Named;
  }

  lemma {:induction false} TwoNamed(i: nat, d: nat, c: nat)
    ensures Named([Dirent(i, "."), Dirent(d, "..")], c) == if c == d then 1 else 0
  {
    var es := [Dirent(i, "."), Dirent(d, "..")];
    assert es[..1] == [Dirent(i, ".")] && es[..1][..0] == [];
    assert Named(es[..1], c) == 0;
  }

  lemma {:induction false} DirMade(nodes: seq<Node>, pending: seq<nat>, d: nat, k: nat, name: Name, i: nat)
    requires Ok(nodes, pending) && d < |nodes| && Linked(nodes[d]) && Vacant(nodes[d].entries, k, name)
    requires 0 < i < |nodes| && nodes[i].kind == 0 && nodes[d].nlink != NLINK_MAX
    ensures Ok(NewDir(nodes, d, k, name, i), pending)
  {
    hide NewDir, DirsOk, CountedAt;
    DirMadeDirs(nodes, pending, d, k, name, i);
    var m := NewDir(nodes, d, k, name, i);
    assert |m| == |nodes| by { NewDirSize(nodes, d, k, name, i); }
    forall c | 0 < c < |m| ensures CountedAt(m, pending, c) { DirMadeCount(nodes, pending, d, k, name, i, c); }
  }

  lemma {:induction false} NewDirSize(nodes: seq<Node>, d: nat, k: nat, name: Name, i: nat)
    requires d < |nodes| && i < |nodes| && i != d && k <= |nodes[d].entries|
    ensures |NewDir(nodes, d, k, name, i)| == |nodes|
  {
  }

  /** What the slot of a new entry in a linked directory has to be. */
  lemma {:induction false} VacantAt(nodes: seq<Node>, d: nat, k: nat, name: Name)
    requires DirsOk(nodes) && d < |nodes| && Linked(nodes[d]) && Vacant(nodes[d].entries, k, name)
    ensures 0 < d && DirOk(nodes, d) && 2 <= k <= |nodes[d].entries| && name != "."
  {
    hide Homes;
    assert DirOk(nodes, d) && d != 0;
    EnterDir(nodes, d, k, Dirent(d, name), d);
  }

  lemma {:induction false} DirMadeCount(nodes: seq<Node>, pending: seq<nat>, d: nat, k: nat, name: Name, i: nat, c: nat)
    requires Ok(nodes, pending) && d < |nodes| && Linked(nodes[d]) && Vacant(nodes[d].entries, k, name)
    requires 0 < i < |nodes| && nodes[i].kind == 0 && nodes[d].nlink != NLINK_MAX && 0 < c < |nodes|
    ensures |NewDir(nodes, d, k, name, i)| == |nodes| && CountedAt(NewDir(nodes, d, k, name, i), pending, c)
  {
    assert CountedAt(nodes, pending, c) && CountedAt(nodes, pending, i) && nodes[0].kind == 0;
    VacantAt(nodes, d, k, name);
    hide NewDir, Refs, DirsOk, Counted, Vacant, DirOk, Up, Linked;
    assert !Linked(nodes[i]) by { LinkedDir(nodes[i]); }
    NewDirSame(nodes, d, k, name, i);
    NewDirRefs(nodes, d, k, name, i, c);
    hide CountedAt;
    NewDirCount(nodes, pending, NewDir(nodes, d, k, name, i), d, i, c);
  }

  lemma {:induction false} NewDirCount(nodes: seq<Node>, pending: seq<nat>, m: seq<Node>, d: nat, i: nat, c: nat)
    requires |m| == |nodes| == |pending| && 0 < c < |m| && d < |m| && i < |m| && d != i
    requires CountedAt(nodes, pending, c) && nodes[i].kind == 0 && nodes[d].kind == T_DIR
    requires m[i].kind == T_DIR && m[i].nlink == 1 && m[d].nlink == nodes[d].nlink + 1 && m[d].kind == nodes[d].kind
    requires c != i && c != d ==> m[c] == nodes[c]
    requires Refs(m, c) == Refs(nodes, c) + (if c == i then 1 else 0) + (if c == d then 1 else 0)
    ensures CountedAt(m, pending, c)
  {
  }

  lemma {:induction false} DirMadeDirs(nodes: seq<Node>, pending: seq<nat>, d: nat, k: nat, name: Name, i: nat)
    requires Ok(nodes, pending) && d < |nodes| && Linked(nodes[d]) && Vacant(nodes[d].entries, k, name)
    requires 0 < i < |nodes| && nodes[i].kind == 0 && nodes[d].nlink != NLINK_MAX
    ensures DirsOk(NewDir(nodes, d, k, name, i))
  {
    var m := NewDir(nodes, d, k, name, i);
    VacantAt(nodes, d, k, name);
    assert CountedAt(nodes, pending, i);
    NewDirSame(nodes, d, k, name, i);
    assert !Linked(nodes[i]) && !Linked(nodes[0]) && i != ROOT;
    hide Refs, DirOk, Holds, NewDir, Vacant, Homes, Linked, Named, Up, Counted, IsDir;
    forall x | 0 <= x < |m| && Linked(m[x]) ensures DirOk(m, x) { NewDirOk(nodes, d, k, name, i, x); }
    forall x: nat, j: nat, c: nat | 0 < c
      ensures Holds(m, x, j, c)
         <==> Holds(nodes, x, j, c) || (x == d && j == k && c == i) || (x == i && j == 1 && c == d)
    {
      NewDirHolds(nodes, d, k, name, i, x, j, c);
    }
    forall x: nat, j: nat ensures !Holds(nodes, x, j, i) { if Holds(nodes, x, j, i) { RefsPositive(nodes, x, j, i); } }
    NewDirHomes(nodes, m, d, k, i);
    RootUp(nodes, m, i);
  }

  lemma {:induction false} RootUp(nodes: seq<Node>, m: seq<Node>, i: nat)
    requires ROOT < |nodes| == |m| && Linked(nodes[ROOT]) && i != ROOT && Up(nodes[ROOT]) == ROOT
    requires forall c :: 0 <= c < |m| && c != i ==>
      && Up(m[c]) == Up(nodes[c]) && IsDir(m[c]) == IsDir(nodes[c]) && Linked(m[c]) == Linked(nodes[c])
    ensures Up(m[ROOT]) == ROOT && Linked(m[ROOT])
  {
  }

  lemma {:induction false} NewDirOk(nodes: seq<Node>, d: nat, k: nat, name: Name, i: nat, x: nat)
    requires d < |nodes| && Vacant(nodes[d].entries, k, name) && DirOk(nodes, d) && 0 < d && 0 < i < |nodes| && i != d
    requires x < |nodes| && (x != i ==> DirOk(nodes, x)) && !Linked(nodes[i])
    requires Linked(nodes[d]) && nodes[d].nlink != NLINK_MAX
    ensures DirOk(NewDir(nodes, d, k, name, i), x)
  {
    var m := NewDir(nodes, d, k, name, i);
    assert forall y :: 0 <= y < |nodes| && Linked(nodes[y]) ==> Linked(m[y]);
    if x == i {
      assert m[x].entries == [Dirent(i, "."), Dirent(d, "..")];
    }
  }

  lemma {:induction false} NewDirSame(nodes: seq<Node>, d: nat, k: nat, name: Name, i: nat)
    requires d < |nodes| && i < |nodes| && i != d && 2 <= k <= |nodes[d].entries|
    requires Linked(nodes[d]) && nodes[d].nlink != NLINK_MAX
    ensures var m := NewDir(nodes, d, k, name, i);
      && |m| == |nodes| && Linked(m[i]) && Up(m[i]) == d && m[i].kind == T_DIR && m[i].nlink == 1
      && m[d].nlink == nodes[d].nlink + 1 && m[d].kind == nodes[d].kind
      && forall c :: 0 <= c < |m| && c != i ==>
        && Up(m[c]) == Up(nodes[c]) && IsDir(m[c]) == IsDir(nodes[c]) && Linked(m[c]) == Linked(nodes[c])
        && (c != d ==> m[c] == nodes[c])
  {
  }

  lemma {:induction false} NewDirHomes(nodes: seq<Node>, m: seq<Node>, d: nat, k: nat, i: nat)
    requires Homes(nodes) && |m| == |nodes| && ROOT < |m| && 0 < i < |m| && i != d && 2 <= k && d < |nodes|
    requires Linked(nodes[ROOT])
    requires !Linked(nodes[i]) && !Linked(nodes[0]) && Linked(m[i]) && Up(m[i]) == d
    requires forall c :: 0 <= c < |m| && c != i ==>
      Up(m[c]) == Up(nodes[c]) && IsDir(m[c]) == IsDir(nodes[c]) && Linked(m[c]) == Linked(nodes[c])
    requires forall x: nat, j: nat :: !Holds(nodes, x, j, i)
    requires forall x: nat, j: nat, c: nat :: 0 < c ==>
      (Holds(m, x, j, c) <==> Holds(nodes, x, j, c) || (x == d && j == k && c == i) || (x == i && j == 1 && c == d))
    ensures Homes(m)
  {
    hide Holds, Linked, IsDir, Up;
    forall x: nat, j: nat, c: nat | Holds(m, x, j, c) ensures AtHome(m, x, j, c) {
      if 0 < c && Holds(nodes, x, j, c) { assert AtHome(nodes, x, j, c); }
    }
    forall x: nat, j: nat, n: nat, c: nat | Holds(m, x, j, c) && Holds(m, x, n, c) ensures Once(m, j, n, c) {
      if 0 < c < |m| && 2 <= j && 2 <= n && Holds(nodes, x, j, c) && Holds(nodes, x, n, c) {
        assert Once(nodes, j, n, c);
      }
    }
    forall c: nat | c < |m| && Linked(m[c]) && c != ROOT ensures Housed(m, c) {
      if c == i { assert Holds(m, Up(m[c]), k, c); } else {
        assert Housed(nodes, c);
        KeepsHouse(nodes, m, c);
      }
    }
  }

  lemma {:induction false} DirLost(nodes: seq<Node>, pending: seq<nat>, d: nat, k: nat, name: Name, i: nat)
    requires Ok(nodes, pending) && d < |nodes| && IsDir(nodes[d]) && Vacant(nodes[d].entries, k, name)
    requires 0 < i < |nodes| && nodes[i].kind == 0 && !(Linked(nodes[d]) && nodes[d].nlink != NLINK_MAX)
    ensures !Ok(NewDir(nodes, d, k, name, i), pending)
  {
    var m := NewDir(nodes, d, k, name, i);
    assert CountedAt(nodes, pending, d) && 0 < d;
    LostShape(nodes, d, k, name, i);
    assert !Linked(nodes[d]) ==> d != ROOT;
    hide Refs, Named, NewDir, Vacant, DirsOk;
    if Ok(m, pending) { LostNot(m, pending, d, i, nodes[d].nlink); }
  }

  lemma {:induction false} LostNot(m: seq<Node>, pending: seq<nat>, d: nat, i: nat, nlink: int)
    requires Ok(m, pending) && 0 < d < |m| && 0 < i < |m| && i != d && IsDir(m[d])
    requires Linked(m[i]) && m[i].entries == [Dirent(i, "."), Dirent(d, "..")] && Holds(m, i, 1, d)
    requires 0 <= nlink && m[d].nlink == Inc(nlink) && (nlink == 0 ==> d != ROOT)
    ensures nlink != NLINK_MAX && nlink != 0
  {
    assert DirOk(m, i) && Linked(m[d]);
    if nlink == 0 {
      assert Housed(m, d) && CountedAt(m, pending, d);
      hide Homes, DirOk, Refs;
      var j: nat :| 2 <= j && Holds(m, Up(m[d]), j, d);
      assert Up(m[d]) != i;
      RefsTwo(m, i, 1, Up(m[d]), j, d);
    }
  }

  lemma {:induction false} LostShape(nodes: seq<Node>, d: nat, k: nat, name: Name, i: nat)
    requires 0 < d < |nodes| && i < |nodes| && i != d && k <= |nodes[d].entries|
    ensures var m := NewDir(nodes, d, k, name, i);
      && Linked(m[i]) && m[i].entries == [Dirent(i, "."), Dirent(d, "..")] && Holds(m, i, 1, d)
      && m[d].nlink == Inc(nodes[d].nlink)
  {
  }

  /** Entries in two directories count for two. */
  lemma {:induction false} RefsTwo(nodes: seq<Node>, x: nat, j: nat, y: nat, n: nat, c: nat)
    requires x != y && Holds(nodes, x, j, c) && Holds(nodes, y, n, c)
    ensures Refs(nodes, c) >= 2
  {
    var m := nodes[x := nodes[x].(nlink := 0)];
    RefsSet(nodes, x, m[x], c);
    NamedPositive(nodes[x].entries, j, c);
    assert Holds(m, y, n, c);
    RefsPositive(m, y, n, c);
  }

  // ---- unlink ----------------------------------------------------------------------------------------

  /** Slot k of directory d overwritten with zeroes. */
  function Erase(nodes: seq<Node>, d: nat, k: nat): seq<Node>
    requires d < |nodes| && k < |nodes[d].entries|
  {
    nodes[d := nodes[d].(entries := nodes[d].entries[k := Dirent(0, "")])]
  }

  lemma {:induction false} EraseRefs(nodes: seq<Node>, d: nat, k: nat, c: nat)
    requires d < |nodes| && Linked(nodes[d]) && k < |nodes[d].entries| && nodes[d].entries[k].name != "." && 0 < c
    ensures Refs(Erase(nodes, d, k), c) == Refs(nodes, c) - if c == nodes[d].entries[k].inum then 1 else 0
  {
    RefsSet(nodes, d, Erase(nodes, d, k)[d], c);
    NamedSet(nodes[d].entries, k, Dirent(0, ""), c);
  }

  lemma {:induction false} EraseHolds(nodes: seq<Node>, d: nat, k: nat, x: nat, j: nat, c: nat)
    requires d < |nodes| && k < |nodes[d].entries| && 0 < c
    ensures Holds(Erase(nodes, d, k), x, j, c) <==> Holds(nodes, x, j, c) && !(x == d && j == k)
  {
  }

  /** The entry that unlink removes. */
  predicate Entered(nodes: seq<Node>, d: nat, k: nat, i: nat) {
    && d < |nodes| && Linked(nodes[d]) && 2 <= k < |nodes[d].entries|
    && nodes[d].entries[k].inum == i && 0 < i < |nodes|
  }

  lemma {:induction false} EnteredHolds(nodes: seq<Node>, d: nat, k: nat, i: nat)
    requires Entered(nodes, d, k, i) && DirOk(nodes, d) && 0 < d
    ensures nodes[d].entries[k].name != "." && Holds(nodes, d, k, i)
  {
  }

  lemma {:induction false} EraseDirs(nodes: seq<Node>, d: nat, k: nat, i: nat)
    requires DirsOk(nodes) && Entered(nodes, d, k, i) && !IsDir(nodes[i])
    ensures DirsOk(Erase(nodes, d, k))
  {
    var m := Erase(nodes, d, k);
    assert DirOk(nodes, d) && 0 < d;
    EnteredHolds(nodes, d, k, i);
    forall c | 0 <= c < |m|
      ensures Up(m[c]) == Up(nodes[c]) && IsDir(m[c]) == IsDir(nodes[c]) && Linked(m[c]) == Linked(nodes[c])
    {
    }
    forall x | 0 <= x < |m| && Linked(m[x]) ensures DirOk(m, x) { EraseOk(nodes, d, k, x); }
    forall x: nat, j: nat, c: nat | 0 < c ensures Holds(m, x, j, c) <==> Holds(nodes, x, j, c) && !(x == d && j == k) {
      EraseHolds(nodes, d, k, x, j, c);
    }
    forall c: nat | 0 < c < |nodes| && Holds(nodes, d, k, c) ensures c == i {}
    hide DirOk, Holds, Erase;
    LessHomes(nodes, m, d, k, i);
  }

  lemma {:induction false} EraseOk(nodes: seq<Node>, d: nat, k: nat, x: nat)
    requires d < |nodes| && 2 <= k < |nodes[d].entries| && x < |nodes| && DirOk(nodes, x)
    ensures DirOk(Erase(nodes, d, k), x)
  {
  }

  lemma {:induction false} LessHomes(nodes: seq<Node>, m: seq<Node>, d: nat, k: nat, i: nat)
    requires Homes(nodes) && |m| == |nodes| && 0 < i < |nodes| && !IsDir(nodes[i]) && !Linked(nodes[0])
    requires forall c :: 0 <= c < |m| ==>
      Up(m[c]) == Up(nodes[c]) && IsDir(m[c]) == IsDir(nodes[c]) && Linked(m[c]) == Linked(nodes[c])
    requires forall x: nat, j: nat, c: nat :: 0 < c ==>
      (Holds(m, x, j, c) <==> Holds(nodes, x, j, c) && !(x == d && j == k))
    requires forall c: nat :: 0 < c < |nodes| && Holds(nodes, d, k, c) ==> c == i
    ensures Homes(m)
  {
    LinkedDir(nodes[i]);
    hide Holds, Linked, IsDir, Up;
    forall x: nat, j: nat, c: nat | Holds(m, x, j, c) ensures AtHome(m, x, j, c) {
      if 0 < c { assert AtHome(nodes, x, j, c); }
    }
    forall x: nat, j: nat, n: nat, c: nat | Holds(m, x, j, c) && Holds(m, x, n, c) ensures Once(m, j, n, c) {
      if 0 < c { assert Once(nodes, j, n, c); }
    }
    forall c: nat | c < |m| && Linked(m[c]) && c != ROOT ensures Housed(m, c) {
      assert Housed(nodes, c) && c != i;
      KeepsHouse(nodes, m, c);
    }
  }

  lemma {:induction false} LinkedDir(n: Node)
    ensures Linked(n) ==> IsDir(n)
  {
  }

  /** Unlinking a file: the entry goes, and the count with it. */
  lemma {:induction false} FileUnlinked(nodes: seq<Node>, pending: seq<nat>, d: nat, k: nat, i: nat)
    requires Ok(nodes, pending) && Entered(nodes, d, k, i) && !IsDir(nodes[i])
    ensures nodes[i].kind != 0 && nodes[i].nlink >= 1
    ensures var n := Erase(nodes, d, k); Ok(n[i := n[i].(nlink := nodes[i].nlink - 1)], pending)
  {
    hide Refs, DirsOk, DirOk, Holds, Named, Linked, Erase;
    EnteredAt(nodes, d, k, i);
    RefsPositive(nodes, d, k, i);
    EraseDirs(nodes, d, k, i);
    var n := Erase(nodes, d, k);
    forall c: nat | 0 < c ensures Refs(n, c) == Refs(nodes, c) - if c == i then 1 else 0 { EraseRefs(nodes, d, k, c); }
    EraseSame(nodes, d, k);
    assert CountedAt(nodes, pending, i) && i != d by { LinkedDir(nodes[d]); }
    FileLess(nodes, n, pending, d, i);
  }

  lemma {:induction false} EnteredAt(nodes: seq<Node>, d: nat, k: nat, i: nat)
    requires DirsOk(nodes) && Entered(nodes, d, k, i)
    ensures 0 < d && DirOk(nodes, d) && nodes[d].entries[k].name != "." && Holds(nodes, d, k, i)
  {
    EnteredHolds(nodes, d, k, i);
  }

  lemma {:induction false} EraseSame(nodes: seq<Node>, d: nat, k: nat)
    requires d < |nodes| && k < |nodes[d].entries|
    ensures var n := Erase(nodes, d, k); |n| == |nodes| && n[d].kind == nodes[d].kind && n[d].nlink == nodes[d].nlink
    ensures forall c :: 0 <= c < |nodes| && c != d ==> Erase(nodes, d, k)[c] == nodes[c]
  {
  }

  lemma {:induction false} FileLess(nodes: seq<Node>, n: seq<Node>, pending: seq<nat>, d: nat, i: nat)
    requires Counted(nodes, pending) && DirsOk(n) && |n| == |nodes| && 0 < i < |n| && d < |n| && i != d
    requires !IsDir(n[i]) && n[d].kind == nodes[d].kind && n[d].nlink == nodes[d].nlink && Refs(nodes, i) > 0
    requires forall c :: 0 <= c < |nodes| && c != d ==> n[c] == nodes[c]
    requires forall c: nat :: 0 < c ==> Refs(n, c) == Refs(nodes, c) - if c == i then 1 else 0
    ensures Ok(n[i := n[i].(nlink := nodes[i].nlink - 1)], pending)
  {
    var m := n[i := n[i].(nlink := nodes[i].nlink - 1)];
    FileNode(n, i, m[i]);
    hide Refs, DirsOk;
    forall c | 0 < c < |m| ensures CountedAt(m, pending, c) { assert CountedAt(nodes, pending, c); }
  }

  /** isdirempty: nothing but "." and "..". */
  predicate NoEntries(n: Node) { forall k :: 2 <= k < |n.entries| ==> n.entries[k].inum == 0 }

  lemma {:induction false} DirAt(nodes: seq<Node>, x: nat)
    requires DirsOk(nodes) && x < |nodes| && Linked(nodes[x])
    ensures 0 < x && DirOk(nodes, x) && (x == ROOT ==> Up(nodes[x]) == ROOT) && (x != ROOT ==> Housed(nodes, x))
  {
  }

  /** An empty directory is nobody's parent. */
  lemma {:induction false} UpNotEmpty(nodes: seq<Node>, x: nat, i: nat)
    requires DirsOk(nodes) && x < |nodes| && Linked(nodes[x]) && i < |nodes| && i != ROOT && NoEntries(nodes[i])
    ensures Up(nodes[x]) != i
  {
  }

  lemma {:induction false} AtHomeOf(nodes: seq<Node>, x: nat, j: nat, c: nat)
    requires DirsOk(nodes) && Holds(nodes, x, j, c)
    ensures AtHome(nodes, x, j, c)
  {
    hide Holds, DirOk;
  }

  lemma {:induction false} OnceOf(nodes: seq<Node>, x: nat, j: nat, n: nat, c: nat)
    requires DirsOk(nodes) && Holds(nodes, x, j, c) && Holds(nodes, x, n, c)
    ensures Once(nodes, j, n, c)
  {
  }

  /** The only entry for an empty directory is the one in its parent. */
  lemma {:induction false} OnlyEntry(nodes: seq<Node>, d: nat, k: nat, i: nat, x: nat, j: nat)
    requires DirsOk(nodes) && Entered(nodes, d, k, i) && IsDir(nodes[i]) && NoEntries(nodes[i]) && Holds(nodes, x, j, i)
    ensures x == d && j == k && i != ROOT && i != d && Linked(nodes[i]) && Up(nodes[i]) == d
  {
    EnteredAt(nodes, d, k, i);
    AtHomeOf(nodes, d, k, i);
    AtHomeOf(nodes, x, j, i);
    assert i != d;
    HoldsLinked(nodes, x, j, i);
    hide DirsOk, DirOk, Holds, Linked, Up;
    DirAt(nodes, x);
    HoldsSlot(nodes, x, j, i);
    UpNotEmpty(nodes, x, i);
    if x == d { OnceOf(nodes, d, j, k, i); }
  }

  lemma {:induction false} HoldsLinked(nodes: seq<Node>, x: nat, j: nat, c: nat)
    requires Holds(nodes, x, j, c)
    ensures x < |nodes| && Linked(nodes[x])
  {
  }

  lemma {:induction false} HoldsSlot(nodes: seq<Node>, x: nat, j: nat, c: nat)
    requires Holds(nodes, x, j, c) && DirOk(nodes, x)
    ensures j != 0 && (j == 1 ==> Up(nodes[x]) == c)
  {
  }

  lemma {:induction false} EmptyDirCounts(nodes: seq<Node>, d: nat, k: nat, i: nat)
    requires DirsOk(nodes) && Entered(nodes, d, k, i) && IsDir(nodes[i]) && NoEntries(nodes[i])
    ensures Refs(nodes, i) == 1 && Refs(nodes, d) >= 2
    ensures i != ROOT && i != d && Linked(nodes[i]) && Up(nodes[i]) == d && 0 < d
  {
    EnteredAt(nodes, d, k, i);
    OnlyEntry(nodes, d, k, i, d, k);
    DirAt(nodes, i);
    DirAt(nodes, d);
    hide DirsOk, Named, Refs;
    var n := Erase(nodes, d, k);
    forall x: nat, j: nat ensures !Holds(n, x, j, i) {
      EraseHolds(nodes, d, k, x, j, i);
      if Holds(nodes, x, j, i) { OnlyEntry(nodes, d, k, i, x, j); }
    }
    RefsZero(n, i);
    EraseRefs(nodes, d, k, i);
    assert Holds(nodes, i, 1, d);
    if d == ROOT {
      assert Holds(nodes, ROOT, 1, ROOT);
      RefsTwo(nodes, i, 1, ROOT, 1, d);
    } else {
      UpNotEmpty(nodes, d, i);
      var j: nat :| 2 <= j && Holds(nodes, Up(nodes[d]), j, d);
      RefsTwo(nodes, i, 1, Up(nodes[d]), j, d);
    }
  }

  /** unlink of a directory: the entry goes, and a link of each of the two. */
  function RemoveDir(nodes: seq<Node>, d: nat, k: nat, i: nat): seq<Node>
    requires d < |nodes| && k < |nodes[d].entries| && i < |nodes|
  {
    var n := Erase(nodes, d, k);
    var n1 := n[d := n[d].(nlink := n[d].nlink - 1)];
    n1[i := n1[i].(nlink := n1[i].nlink - 1)]
  }

  lemma {:induction false} EmptyNamed(es: seq<Dirent>, i: nat, d: nat, c: nat)
    requires 2 <= |es| && es[0] == Dirent(i, ".") && es[1] == Dirent(d, "..") && 0 < c
    requires forall k :: 2 <= k < |es| ==> es[k].inum == 0
    ensures Named(es, c) == if c == d then 1 else 0
    decreases |es|
  {
    if |es| == 2 {
      assert es == [Dirent(i, "."), Dirent(d, "..")];
      TwoNamed(i, d, c);
    } else {
      EmptyNamed(es[..|es| - 1], i, d, c);
    }
  }

  /** The state between: nlink of i is 1 and that of d at least 2. */
  lemma {:induction false} RemoveRefs(nodes: seq<Node>, d: nat, k: nat, i: nat, c: nat)
    requires Entered(nodes, d, k, i) && DirOk(nodes, d) && DirOk(nodes, i) && 0 < d && i != d && 0 < c < |nodes|
    requires Linked(nodes[i]) && NoEntries(nodes[i]) && Up(nodes[i]) == d && nodes[i].nlink == 1 && nodes[d].nlink >= 2
    ensures Refs(RemoveDir(nodes, d, k, i), c) == Refs(nodes, c) - (if c == i then 1 else 0) - (if c == d then 1 else 0)
  {
    hide Refs, Named, NamesUnique, Holds;
    EnteredHolds(nodes, d, k, i);
    EraseRefs(nodes, d, k, c);
    EmptyNamed(nodes[i].entries, i, d, c);
    hide DirOk, NoEntries, Up;
    var n := Erase(nodes, d, k);
    var n1 := n[d := n[d].(nlink := n[d].nlink - 1)];
    assert n[i] == nodes[i] && n1[i] == nodes[i] && n[d].nlink == nodes[d].nlink;
    assert n1[d].entries == n[d].entries;
    assert Share(n1[d], c) == Share(n[d], c) && Share(n1[i], c) == if c == d then 1 else 0;
    hide Share, Erase;
    RefsSet(n, d, n1[d], c);
    RefsSet(n1, i, n1[i].(nlink := n1[i].nlink - 1), c);
  }

  lemma {:induction false} RemoveHolds(nodes: seq<Node>, d: nat, k: nat, i: nat, x: nat, j: nat, c: nat)
    requires Entered(nodes, d, k, i) && i != d && 0 < c && nodes[i].nlink == 1 && nodes[d].nlink >= 2
    ensures Holds(RemoveDir(nodes, d, k, i), x, j, c) <==> Holds(nodes, x, j, c) && !(x == d && j == k) && x != i
  {
  }

  lemma {:induction false} RemoveSame(nodes: seq<Node>, d: nat, k: nat, i: nat)
    requires Entered(nodes, d, k, i) && i != d && nodes[i].nlink == 1 && nodes[d].nlink >= 2
    ensures var m := RemoveDir(nodes, d, k, i);
      && |m| == |nodes| && !Linked(m[i]) && m[i].nlink == 0 && m[d].nlink == nodes[d].nlink - 1
      && forall c :: 0 <= c < |m| ==>
        && Up(m[c]) == Up(nodes[c]) && m[c].kind == nodes[c].kind && (c != i ==> Linked(m[c]) == Linked(nodes[c]))
        && (c != i && c != d ==> m[c] == nodes[c])
  {
  }

  lemma {:induction false} RemoveOk(nodes: seq<Node>, d: nat, k: nat, i: nat, x: nat)
    requires Entered(nodes, d, k, i) && i != d && nodes[i].nlink == 1 && nodes[d].nlink >= 2
    requires x < |nodes| && DirOk(nodes, x) && Up(nodes[x]) != i
    ensures DirOk(RemoveDir(nodes, d, k, i), x)
  {
  }

  lemma {:induction false} SlotOnly(nodes: seq<Node>, d: nat, k: nat, i: nat)
    requires Entered(nodes, d, k, i)
    ensures forall c: nat :: Holds(nodes, d, k, c) ==> c == i
  {
  }

  lemma {:induction false} RemoveHomes(nodes: seq<Node>, m: seq<Node>, d: nat, k: nat, i: nat)
    requires DirsOk(nodes) && Entered(nodes, d, k, i) && IsDir(nodes[i]) && NoEntries(nodes[i]) && |m| == |nodes|
    requires !Linked(m[i]) && forall c :: 0 <= c < |m| ==>
      Up(m[c]) == Up(nodes[c]) && m[c].kind == nodes[c].kind && (c != i ==> Linked(m[c]) == Linked(nodes[c]))
    requires forall x: nat, j: nat, c: nat :: 0 < c ==>
      (Holds(m, x, j, c) <==> Holds(nodes, x, j, c) && !(x == d && j == k) && x != i)
    ensures Homes(m)
  {
    hide DirsOk, DirOk, Holds, Linked, Up, NoEntries, Refs;
    EnteredAt(nodes, d, k, i);
    OnlyEntry(nodes, d, k, i, d, k);
    SlotOnly(nodes, d, k, i);
    forall x: nat, j: nat, c: nat | Holds(m, x, j, c) ensures AtHome(m, x, j, c) {
      if 0 < c {
        AtHomeOf(nodes, x, j, c);
        if c == i { OnlyEntry(nodes, d, k, i, x, j); }
      }
    }
    forall x: nat, j: nat, n: nat, c: nat | Holds(m, x, j, c) && Holds(m, x, n, c) ensures Once(m, j, n, c) {
      if 0 < c { OnceOf(nodes, x, j, n, c); }
    }
    forall c: nat | c < |m| && Linked(m[c]) && c != ROOT ensures Housed(m, c) {
      DirAt(nodes, c);
      UpNotEmpty(nodes, c, i);
      KeepsHouse(nodes, m, c);
    }
  }

  /** Unlinking an empty directory: it has one link, and its parent has one to spare. */
  lemma {:induction false} DirUnlinked(nodes: seq<Node>, pending: seq<nat>, d: nat, k: nat, i: nat)
    requires Ok(nodes, pending) && Entered(nodes, d, k, i) && IsDir(nodes[i]) && NoEntries(nodes[i])
    ensures nodes[i].nlink == 1 && nodes[d].nlink >= 2 && i != d
    ensures Ok(RemoveDir(nodes, d, k, i), pending)
  {
    EmptyDirCounts(nodes, d, k, i);
    assert CountedAt(nodes, pending, i) && CountedAt(nodes, pending, d);
    hide DirsOk, RemoveDir, CountedAt, Refs, NoEntries;
    RemoveDirs(nodes, d, k, i);
    RemoveSame(nodes, d, k, i);
    var m := RemoveDir(nodes, d, k, i);
    forall c | 0 < c < |m| ensures CountedAt(m, pending, c) { RemoveCount(nodes, pending, d, k, i, c); }
  }

  lemma {:induction false} RemoveCount(nodes: seq<Node>, pending: seq<nat>, d: nat, k: nat, i: nat, c: nat)
    requires Ok(nodes, pending) && Entered(nodes, d, k, i) && IsDir(nodes[i]) && NoEntries(nodes[i]) && 0 < c < |nodes|
    requires nodes[i].nlink == 1 && nodes[d].nlink >= 2
    ensures |RemoveDir(nodes, d, k, i)| == |nodes| && CountedAt(RemoveDir(nodes, d, k, i), pending, c)
  {
    assert CountedAt(nodes, pending, c);
    EmptyDirCounts(nodes, d, k, i);
    hide DirsOk, DirOk, Refs, RemoveDir, NoEntries, Up, Linked, Counted;
    DirAt(nodes, d);
    DirAt(nodes, i);
    RemoveSame(nodes, d, k, i);
    RemoveRefs(nodes, d, k, i, c);
    LinkedDir(nodes[d]);
    hide CountedAt;
    RemovedCount(nodes, pending, RemoveDir(nodes, d, k, i), d, i, c);
  }

  lemma {:induction false} RemovedCount(nodes: seq<Node>, pending: seq<nat>, m: seq<Node>, d: nat, i: nat, c: nat)
    requires |m| == |nodes| == |pending| && 0 < c < |m| && d < |m| && i < |m| && d != i
    requires CountedAt(nodes, pending, c) && nodes[i].kind == nodes[d].kind == T_DIR && nodes[i].nlink == 1
    requires m[c].kind == nodes[c].kind && m[i].nlink == 0 && m[d].nlink == nodes[d].nlink - 1
    requires c != i && c != d ==> m[c] == nodes[c]
    requires Refs(m, c) == Refs(nodes, c) - (if c == i then 1 else 0) - (if c == d then 1 else 0)
    ensures CountedAt(m, pending, c)
  {
  }

  lemma {:induction false} RemoveDirs(nodes: seq<Node>, d: nat, k: nat, i: nat)
    requires DirsOk(nodes) && Entered(nodes, d, k, i) && IsDir(nodes[i]) && NoEntries(nodes[i])
    requires nodes[i].nlink == 1 && nodes[d].nlink >= 2
    ensures DirsOk(RemoveDir(nodes, d, k, i))
  {
    EmptyDirCounts(nodes, d, k, i);
    var m := RemoveDir(nodes, d, k, i);
    RemoveSame(nodes, d, k, i);
    assert Linked(nodes[ROOT]) && Up(nodes[ROOT]) == ROOT && nodes[0].kind == 0 && ROOT < |nodes|;
    assert m[ROOT].kind == nodes[ROOT].kind && Linked(m[ROOT]) && Up(m[ROOT]) == ROOT && m[0].kind == 0;
    hide DirsOk, DirOk, Holds, Linked, Up, RemoveDir, NoEntries, Homes, Refs;
    forall x | 0 <= x < |m| && Linked(m[x]) ensures DirOk(m, x) {
      DirAt(nodes, x);
      UpNotEmpty(nodes, x, i);
      RemoveOk(nodes, d, k, i, x);
    }
    forall x: nat, j: nat, c: nat | 0 < c
      ensures Holds(m, x, j, c) <==> Holds(nodes, x, j, c) && !(x == d && j == k) && x != i
    {
      RemoveHolds(nodes, d, k, i, x, j, c);
    }
    RemoveHomes(nodes, m, d, k, i);
    DirsFrom(m);
  }

  lemma {:induction false} DirsFrom(m: seq<Node>)
    requires ROOT < |m| && m[0].kind == 0 && Linked(m[ROOT]) && Up(m[ROOT]) == ROOT && Homes(m)
    requires forall x :: 0 <= x < |m| && Linked(m[x]) ==> DirOk(m, x)
    ensures DirsOk(m)
  {
  }

  // ---- iput ------------------------------------------------------------------------------------------

  /** An inode with no links left may be freed. */
  lemma {:induction false} NodeFreed(nodes: seq<Node>, pending: seq<nat>, i: nat)
    requires Ok(nodes, pending) && 0 < i < |nodes| && nodes[i].kind != 0 && nodes[i].nlink == 0
    ensures Ok(nodes[i := Node(0, 0, [])], pending)
  {
    var m := nodes[i := Node(0, 0, [])];
    assert CountedAt(nodes, pending, i);
    RefsSame(nodes, i, m[i]);
    forall x: nat, j: nat, c: nat ensures Holds(m, x, j, c) == Holds(nodes, x, j, c) {}
    forall x: nat, j: nat ensures !Holds(nodes, x, j, i) { if Holds(nodes, x, j, i) { RefsPositive(nodes, x, j, i); } }
    FreedDirs(nodes, m, i);
    hide Refs, DirsOk;
    forall c | 0 < c < |m| ensures CountedAt(m, pending, c) { assert CountedAt(nodes, pending, c); }
  }

  lemma {:induction false} FreedDirs(nodes: seq<Node>, m: seq<Node>, i: nat)
    requires DirsOk(nodes) && 0 < i < |nodes| && !Linked(nodes[i]) && m == nodes[i := Node(0, 0, [])]
    requires forall x: nat, j: nat, c: nat :: Holds(m, x, j, c) == Holds(nodes, x, j, c)
    requires forall x: nat, j: nat :: !Holds(nodes, x, j, i)
    ensures DirsOk(m)
  {
    assert forall c :: 0 <= c < |m| ==> Linked(m[c]) == Linked(nodes[c]) && (c != i ==> m[c] == nodes[c]);
    hide Holds, NamesUnique, Linked, Up, DirOk;
    forall x | 0 <= x < |m| && Linked(m[x]) ensures DirOk(m, x) {
      assert DirOk(nodes, x);
      SameDirOk(nodes, m, x, i);
    }
    FreedHomes(nodes, m, i);
    DirsFrom(m);
  }

  lemma {:induction false} SameDirOk(nodes: seq<Node>, m: seq<Node>, x: nat, i: nat)
    requires |m| == |nodes| && x < |m| && x != i && DirOk(nodes, x)
    requires forall c :: 0 <= c < |m| ==> Linked(m[c]) == Linked(nodes[c]) && (c != i ==> m[c] == nodes[c])
    ensures DirOk(m, x)
  {
  }

  lemma {:induction false} FreedHomes(nodes: seq<Node>, m: seq<Node>, i: nat)
    requires Homes(nodes) && 0 < i < |nodes| && !Linked(nodes[i]) && m == nodes[i := Node(0, 0, [])]
    requires forall c :: 0 <= c < |m| ==> Linked(m[c]) == Linked(nodes[c]) && (c != i ==> m[c] == nodes[c])
    requires forall x: nat, j: nat, c: nat :: Holds(m, x, j, c) == Holds(nodes, x, j, c)
    requires forall x: nat, j: nat :: !Holds(nodes, x, j, i)
    ensures Homes(m)
  {
    assert !IsDir(m[i]);
    hide Holds, Linked, Up, IsDir;
    forall x: nat, j: nat, c: nat | Holds(m, x, j, c) ensures AtHome(m, x, j, c) {
      assert AtHome(nodes, x, j, c) && c != i;
    }
    forall x: nat, j: nat, n: nat, c: nat | Holds(m, x, j, c) && Holds(m, x, n, c) ensures Once(m, j, n, c) {
      assert Once(nodes, j, n, c) && c != i;
    }
    forall c: nat | c < |m| && Linked(m[c]) && c != ROOT ensures Housed(m, c) {
      assert Housed(nodes, c) && c != i;
      KeepsHouse(nodes, m, c);
    }
  }

  // ---- how many links a directory can have -------------------------------------------------------

  /** The directories whose ".." is d. */
  ghost function Children(nodes: seq<Node>, d: nat, m: nat): set<nat>
    requires m <= |nodes|
  {
    set x: nat | x < m && IsChild(nodes, d, x)
  }

  predicate IsChild(nodes: seq<Node>, d: nat, x: nat)
    requires x < |nodes|
  {
    Linked(nodes[x]) && Up(nodes[x]) == d && x != ROOT
  }

  /** As many inodes as there are slots to name them. */
  lemma {:induction false} SlotsFit(es: seq<Dirent>, s: set<nat>)
    requires 2 <= |es| && forall x :: x in s ==> exists k :: 2 <= k < |es| && es[k].inum == x
    ensures |s| <= |es| - 2
  {
    if |es| == 2 {
      assert s == {};
    } else {
      var n := |es| - 1;
      var rest := s - {es[n].inum};
      forall x | x in rest ensures exists k :: 2 <= k < n && es[..n][k].inum == x {
        var k :| 2 <= k < |es| && es[k].inum == x;
        assert es[..n][k] == es[k];
      }
      SlotsFit(es[..n], rest);
      assert s <= rest + {es[n].inum};
    }
  }

  lemma {:induction false} ChildrenFit(nodes: seq<Node>, d: nat)
    requires DirsOk(nodes) && d < |nodes| && Linked(nodes[d])
    ensures |Children(nodes, d, |nodes|)| <= |nodes[d].entries| - 2
  {
    DirAt(nodes, d);
    forall x | x in Children(nodes, d, |nodes|)
      ensures exists k :: 2 <= k < |nodes[d].entries| && nodes[d].entries[k].inum == x
    {
      DirAt(nodes, x);
      var k: nat :| 2 <= k && Holds(nodes, d, k, x);
    }
    SlotsFit(nodes[d].entries, Children(nodes, d, |nodes|));
  }

  lemma {:induction false} NamedTwice(es: seq<Dirent>, c: nat, b: nat)
    requires 2 <= |es| && 2 <= b && forall k :: 0 <= k < |es| && One(es[k], c) == 1 ==> k == 1 || k == b
    ensures Named(es, c) <= One(es[1], c) + if b < |es| then 1 else 0
  {
    var n := |es| - 1;
    if n == 1 {
      assert es[..1][..0] == [];
      assert Named(es[..1], c) == 0;
    } else {
      NamedTwice(es[..n], c, b);
    }
  }

  /** Behind "." and ".." a linked directory names d only in the slot b. */
  lemma {:induction false} OnlySlot(nodes: seq<Node>, d: nat, x: nat, b: nat)
    requires DirsOk(nodes) && 2 <= b && Holds(nodes, x, b, d) && d < |nodes| && Linked(nodes[d])
    ensures x == Up(nodes[d]) && d != ROOT && b < |nodes[x].entries|
    ensures forall k :: 2 <= k < |nodes[x].entries| && One(nodes[x].entries[k], d) == 1 ==> k == b
  {
    AtHomeOf(nodes, x, b, d);
    hide Up;
    DirAt(nodes, d);
    forall k | 2 <= k < |nodes[x].entries| && One(nodes[x].entries[k], d) == 1 ensures k == b {
      assert Holds(nodes, x, k, d);
      OnceOf(nodes, x, k, b, d);
    }
  }

  lemma {:induction false} FirstSlots(nodes: seq<Node>, d: nat, x: nat)
    requires DirsOk(nodes) && x < |nodes| && Linked(nodes[x])
    ensures 2 <= |nodes[x].entries| && One(nodes[x].entries[0], d) == 0
    ensures One(nodes[x].entries[1], d) == if Up(nodes[x]) == d then 1 else 0
  {
    DirAt(nodes, x);
  }

  /** One directory names d at most by its "..", and once more if it is the one d is entered in. */
  lemma {:induction false} ShareBound(nodes: seq<Node>, d: nat, x: nat)
    requires DirsOk(nodes) && d < |nodes| && Linked(nodes[d]) && x < |nodes|
    ensures Share(nodes[x], d) <= (if IsChild(nodes, d, x) then 1 else 0) + (if x == Up(nodes[d]) then 1 else 0)
  {
    if Linked(nodes[x]) {
      DirAt(nodes, ROOT);
      FirstSlots(nodes, d, x);
      var b := |nodes[x].entries|;
      if k: nat :| 2 <= k && Holds(nodes, x, k, d) {
        b := k;
        OnlySlot(nodes, d, x, k);
      } else {
        NoSlot(nodes, d, x);
      }
      hide DirsOk, DirOk, Named, Up, One, Holds;
      NamedTwice(nodes[x].entries, d, b);
    }
  }

  lemma NoSlot(nodes: seq<Node>, d: nat, x: nat)
    requires x < |nodes| && Linked(nodes[x]) && forall j: nat :: 2 <= j ==> !Holds(nodes, x, j, d)
    ensures forall k :: 2 <= k < |nodes[x].entries| ==> One(nodes[x].entries[k], d) != 1
  {
    forall k | 2 <= k < |nodes[x].entries| ensures One(nodes[x].entries[k], d) != 1 { assert !Holds(nodes, x, k, d); }
  }

  lemma NextChild(nodes: seq<Node>, d: nat, n: nat)
    requires n < |nodes|
    ensures |Children(nodes, d, n + 1)| == |Children(nodes, d, n)| + if IsChild(nodes, d, n) then 1 else 0
  {
    hide IsChild;
    assert Children(nodes, d, n + 1) == Children(nodes, d, n) + if IsChild(nodes, d, n) then {n} else {};
  }

  lemma NextRefs(nodes: seq<Node>, d: nat, n: nat)
    requires n < |nodes|
    ensures Refs(nodes[..n + 1], d) == Refs(nodes[..n], d) + Share(nodes[n], d)
  {
    hide Share;
    assert nodes[..n + 1][..n] == nodes[..n];
  }

  lemma {:induction false} RefsBound(nodes: seq<Node>, d: nat, m: nat)
    requires DirsOk(nodes) && d < |nodes| && Linked(nodes[d]) && m <= |nodes|
    ensures Refs(nodes[..m], d) <= |Children(nodes, d, m)| + if Up(nodes[d]) < m then 1 else 0
  {
    hide DirsOk, Share, Up, Linked, IsChild, Children;
    if m == 0 {
      assert nodes[..0] == [];
    } else {
      hide Refs;
      RefsBound(nodes, d, m - 1);
      ShareBound(nodes, d, m - 1);
      NextChild(nodes, d, m - 1);
      NextRefs(nodes, d, m - 1);
    }
  }

  /** A directory has fewer links than its file has slots. */
  lemma {:induction false} DirLinks(nodes: seq<Node>, pending: seq<nat>, d: nat)
    requires Ok(nodes, pending) && d < |nodes| && Linked(nodes[d])
    ensures nodes[d].nlink < |nodes[d].entries|
  {
    DirAt(nodes, d);
    assert CountedAt(nodes, pending, d);
    ChildrenFit(nodes, d);
    RefsBound(nodes, d, |nodes|);
    assert nodes[..|nodes|] == nodes;
  }
}
