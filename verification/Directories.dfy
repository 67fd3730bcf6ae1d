/** link, unlink and create of sysfile.c over the directories of fs.c, each as the steps it
    takes under its locks; another call may run between the two halves of sys_link. */
module Directories {
  import opened LinkCounts

  const T_FILE := 2

  /** Entering a file in a directory that has been removed loses the link. */
  lemma {:induction false} LinkExact(nodes: seq<Node>, pending: seq<nat>, d: nat, k: nat, e: Dirent)
    requires Ok(nodes, pending) && d < |nodes| && IsDir(nodes[d]) && Vacant(nodes[d].entries, k, e.name)
    requires 0 < e.inum < |nodes| && nodes[e.inum].kind != 0 && !IsDir(nodes[e.inum]) && pending[e.inum] > 0
    ensures Ok(Enter(nodes, d, k, e), pending[e.inum := pending[e.inum] - 1]) <==> Linked(nodes[d])
  {
    if Linked(nodes[d]) {
      LinkEntered(nodes, pending, d, k, e);
    } else {
      var m := Enter(nodes, d, k, e);
      RefsSame(nodes, d, m[d]);
      assert CountedAt(nodes, pending, e.inum);
      hide DirsOk, Refs;
      assert !CountedAt(m, pending[e.inum := pending[e.inum] - 1], e.inum);
    }
  }

  /** What is left of a directory after its removal: "." and "..". */
  predicate Bare(es: seq<Dirent>) {
    2 <= |es| && es[0].name == "." && es[1].name == ".." && forall k :: 2 <= k < |es| ==> es[k].inum == 0
  }

  predicate Emptied(nodes: seq<Node>) {
    forall d :: 0 <= d < |nodes| && IsDir(nodes[d]) && !Linked(nodes[d]) ==> Bare(nodes[d].entries)
  }

  function RootOnly(n: nat): (nodes: seq<Node>)
    requires ROOT < n
    ensures |nodes| == n
  {
    seq(n, i => if i == ROOT then Node(T_DIR, 1, [Dirent(ROOT, "."), Dirent(ROOT, "..")]) else Node(0, 0, []))
  }

  /** The counts of a file system with nothing in it are right. */
  lemma {:induction false} RootOk(n: nat)
    requires ROOT < n
    ensures Ok(RootOnly(n), seq(n, i => 0)) && Emptied(RootOnly(n))
  {
    var nodes, pending := RootOnly(n), seq(n, i => 0);
    assert forall d: nat, k: nat, c: nat :: Holds(nodes, d, k, c) ==> d == ROOT && k == 1 && c == ROOT;
    forall c: nat | 0 < c < n ensures CountedAt(nodes, pending, c) {
      RootRefs(n, c);
    }
    assert DirOk(nodes, ROOT);
  }

  lemma {:induction false} RootRefs(n: nat, c: nat)
    requires ROOT < n
    ensures Refs(RootOnly(n), c) == if c == ROOT then 1 else 0
  {
    var nodes := RootOnly(n);
    var none := nodes[ROOT := Node(0, 0, [])];
    RefsZero(none, c);
    RefsSet(none, ROOT, nodes[ROOT], c);
    assert none[ROOT := nodes[ROOT]] == nodes;
    TwoNamed(ROOT, ROOT, c);
  }

  class Dirs {
    var nodes: seq<Node>
    var ref: seq<nat>           // references held outside the call: open files, directories, calls
    ghost var pending: seq<nat> // links that calls of sys_link in progress have counted

    ghost predicate Valid() reads this { Ok(nodes, pending) && Emptied(nodes) && |ref| == |nodes| }

    /** The file system as mkfs leaves it before it adds files: the root alone. */
    constructor (ninodes: nat)
      requires ROOT < ninodes
      ensures Valid() && |nodes| == ninodes && nodes[ROOT] == Node(T_DIR, 1, [Dirent(ROOT, "."), Dirent(ROOT, "..")])
      ensures forall i :: 0 <= i < ninodes ==> pending[i] == 0 && ref[i] == 0
      ensures forall i :: 0 <= i < ninodes && i != ROOT ==> nodes[i] == Node(0, 0, [])
    {
      nodes := RootOnly(ninodes);
      ref := seq(ninodes, i => 0);
      pending := seq(ninodes, i => 0);
      RootOk(ninodes);
    }

    /** open and chdir keep a reference to the inode after the call. */
    method Hold(i: nat)
      requires Valid() && 0 < i < |nodes| && nodes[i].kind != 0
      modifies this`ref
      ensures Valid() && ref == old(ref)[i := old(ref)[i] + 1]
    {
      ref := ref[i := ref[i] + 1];
    }

    /** dirlookup: the first entry of that name. */
    method DirLookup(d: nat, name: Name) returns (found: bool, k: nat)
      requires d < |nodes| && IsDir(nodes[d])
      ensures k == Find(nodes[d].entries, name) && (found <==> k < |nodes[d].entries|)
    {
      found, k := false, 0;
      while k < |nodes[d].entries|
        invariant k <= |nodes[d].entries| && Absent(nodes[d].entries[..k], name)
      {
        if nodes[d].entries[k].inum != 0 && nodes[d].entries[k].name == name {
          FindIs(nodes[d].entries, name, k);
          found := true;
          return;
        }
        k := k + 1;
      }
      assert nodes[d].entries[..k] == nodes[d].entries;
    }

    /** dirlink: into the first unused slot, or at the end; not if the name is there. */
    method DirLink(d: nat, name: Name, inum: nat) returns (ok: bool)
      requires d < |nodes| && IsDir(nodes[d])
      modifies this`nodes
      ensures ok <==> Absent(old(nodes)[d].entries, name)
      ensures nodes == if ok then Enter(old(nodes), d, Slot(old(nodes)[d].entries), Dirent(inum, name)) else old(nodes)
    {
      var found, at := DirLookup(d, name);
      if found { return false; }
      var off := 0;
      while off < |nodes[d].entries| && nodes[d].entries[off].inum != 0
        invariant off <= |nodes[d].entries| && nodes == old(nodes)
        invariant forall j :: 0 <= j < off ==> nodes[d].entries[j].inum != 0
      {
        off := off + 1;
      }
      var es, e := nodes[d].entries, Dirent(inum, name);
      SlotIs(es, off);
      nodes := nodes[d := nodes[d].(entries := if off < |es| then es[off := e] else es + [e])];
      ok := true;
    }

    method IsDirEmpty(d: nat) returns (empty: bool)
      requires d < |nodes|
      ensures empty <==> NoEntries(nodes[d])
    {
      var off := 2;
      while off < |nodes[d].entries|
        invariant forall k :: 2 <= k < off && k < |nodes[d].entries| ==> nodes[d].entries[k].inum == 0
      {
        if nodes[d].entries[off].inum != 0 { return false; }
        off := off + 1;
      }
      empty := true;
    }

    /** iput at the end of a call: an inode without links or other references is freed. */
    method Put(i: nat)
      requires Valid() && 0 < i < |nodes| && nodes[i].kind != 0
      modifies this`nodes
      ensures Valid() && nodes == Released(old(nodes), ref, i)
    {
      if nodes[i].nlink == 0 && ref[i] == 0 {
        NodeFreed(nodes, pending, i);
        nodes := nodes[i := Node(0, 0, [])];
      }
    }

    /** sys_link up to iunlock(ip): the link is counted before it is made. */
    method LinkBegin(i: nat) returns (r: int)
      requires Valid() && 0 < i < |nodes| && nodes[i].kind != 0
      modifies this
      ensures |ref| == |nodes| == |pending| == |old(nodes)|
      ensures r == if IsDir(old(nodes)[i]) then -1 else 0
      ensures r == -1 ==> nodes == old(nodes) && pending == old(pending) && ref == old(ref)
      ensures r == 0 ==> nodes == old(nodes)[i := old(nodes)[i].(nlink := Inc(old(nodes)[i].nlink))]
      ensures r == 0 ==> pending == old(pending)[i := old(pending)[i] + 1] && ref == old(ref)[i := old(ref)[i] + 1]
      ensures Valid() <==> r == -1 || old(nodes)[i].nlink != NLINK_MAX
    {
      hide Ok, Inc;
      OkSize(nodes, pending);
      if IsDir(nodes[i]) { return -1; }
      LinkStarts(nodes, pending, i);
      nodes := nodes[i := nodes[i].(nlink := Inc(nodes[i].nlink))];
      pending := pending[i := pending[i] + 1];
      ref := ref[i := ref[i] + 1];
      r := 0;
    }

    /** The rest of sys_link. parent is 0 when the path leads to no directory. Without an entry
        the count goes back to what it was. */
    method LinkEnd(i: nat, parent: nat, name: Name) returns (r: int)
      requires Valid() && 0 < i < |nodes| && pending[i] > 0 && ref[i] > 0
      requires parent < |nodes| && (parent != 0 ==> IsDir(nodes[parent]))
      modifies this
      ensures |ref| == |nodes| == |old(nodes)|
      ensures r == if parent != 0 && Absent(old(nodes)[parent].entries, name) then 0 else -1
      ensures Valid() <==> r == -1 || Linked(old(nodes)[parent])
      ensures pending == old(pending)[i := old(pending)[i] - 1] && ref == old(ref)[i := old(ref)[i] - 1]
      ensures r == 0 ==> nodes == Enter(old(nodes), parent, Slot(old(nodes)[parent].entries), Dirent(i, name))
      ensures r == -1 ==>
        nodes == Released(old(nodes)[i := old(nodes)[i].(nlink := old(nodes)[i].nlink - 1)], ref, i)
    {
      hide Ok, Released, Absent, Slot;
      OkSize(nodes, pending);
      IsFile(i);
      if parent != 0 {
        var ok := DirLink(parent, name, i);
        if ok {
          SlotVacant(old(nodes)[parent].entries, name);
          LinkExact(old(nodes), pending, parent, Slot(old(nodes)[parent].entries), Dirent(i, name));
          pending := pending[i := pending[i] - 1];
          ref := ref[i := ref[i] - 1];
          return 0;
        }
      }
      LinkUndone(nodes, pending, i);
      NotMinimum(i);
      nodes := nodes[i := nodes[i].(nlink := Dec(nodes[i].nlink))];
      pending := pending[i := pending[i] - 1];
      ref := ref[i := ref[i] - 1];
      Put(i);
      r := -1;
    }

    lemma IsFile(i: nat)
      requires Valid() && 0 < i < |nodes| && pending[i] > 0
      ensures nodes[i].kind != 0 && !IsDir(nodes[i])
    {
      assert CountedAt(nodes, pending, i);
    }

    lemma NotMinimum(i: nat)
      requires Valid() && 0 < i < |nodes| && pending[i] > 0
      ensures Dec(nodes[i].nlink) == nodes[i].nlink - 1 >= 0
    {
      assert CountedAt(nodes, pending, i);
    }

    /** sys_unlink. What has no links and no users left is freed. */
    method Unlink(d: nat, name: Name) returns (r: int)
      requires Valid() && d < |nodes| && IsDir(nodes[d])
      modifies this`nodes
      ensures Valid()
      ensures r == 0 <==> name != "." && name != ".." && Removable(old(nodes), d, name)
      ensures r == 0 || r == -1
      ensures r == -1 ==> nodes == old(nodes)
      ensures r == 0 ==>
        && EntryAt(old(nodes), d, name)
        && nodes == Unlinked(old(nodes), ref, d, Find(old(nodes)[d].entries, name))
      ensures r == 0 ==> Linked(nodes[d]) && Absent(nodes[d].entries, name)
    {
      assert DirsOk(nodes);
      hide Ok, DirsOk, Refs, Holds, Erase, RemoveDir, Detached, Released;
      if name == "." || name == ".." { return -1; }
      var found, k := DirLookup(d, name);
      if !found {
        NotThere(nodes, d, name);
        return -1;
      }
      var i := nodes[d].entries[k].inum;
      NotBare(nodes, d, k);
      hide Emptied, Bare;
      DirAt(nodes, d);
      FoundEntry(nodes, d, k, name);
      NamedOnce(nodes, d, k, name);
      hide NamesUnique, DirOk, Target, Removable, Entered;
      if IsDir(nodes[i]) {
        var empty := IsDirEmpty(i);
        if !empty {
          NotTarget(nodes, d, k, name);
          return -1;
        }
      }
      IsTarget(nodes, d, k, name);
      ErasedAbsent(nodes[d].entries, k, name) by { DirNames(nodes, d); }
      hide NoEntries, Linked, Absent;
      Detach(d, k, i);
      r := 0;
    }

    /** sys_unlink from the write of the empty entry on. */
    method Detach(d: nat, k: nat, i: nat)
      requires Valid() && Entered(nodes, d, k, i) && (IsDir(nodes[i]) ==> NoEntries(nodes[i]))
      modifies this`nodes
      ensures Valid() && nodes == Released(Detached(old(nodes), d, k, i), ref, i)
      ensures d < |nodes| && Linked(nodes[d]) && nodes[d].entries == old(nodes)[d].entries[k := Dirent(0, "")]
    {
      hide Ok, Erase, RemoveDir, NoEntries, Linked;
      Allocated(d, k, i);
      DetachBare(nodes, pending, d, k, i);
      DetachOk(nodes, pending, d, k, i);
      var isDir := IsDir(nodes[i]);
      nodes := Erase(nodes, d, k);
      if isDir { nodes := nodes[d := nodes[d].(nlink := nodes[d].nlink - 1)]; }
      nodes := nodes[i := nodes[i].(nlink := nodes[i].nlink - 1)];
      assert nodes == Detached(old(nodes), d, k, i);
      Put(i);
    }

    lemma Allocated(d: nat, k: nat, i: nat)
      requires Valid() && Entered(nodes, d, k, i)
      ensures nodes[i].kind != 0 && nodes[i].nlink >= 1
    {
      EnteredAt(nodes, d, k, i);
      RefsPositive(nodes, d, k, i);
      assert CountedAt(nodes, pending, i);
    }

    /** create: an existing file for a file, else the first free inode under the name; 0 for
        failure. */
    method Create(d: nat, name: Name, kind: nat) returns (i: nat)
      requires Valid() && d < |nodes| && IsDir(nodes[d]) && kind != 0
      requires exists c :: Free(nodes, c)      // the C panics when no inode is free
      modifies this`nodes
      ensures !Absent(old(nodes)[d].entries, name) ==>
        && Valid() && nodes == old(nodes)
        && i == Existing(nodes, nodes[d].entries[Find(nodes[d].entries, name)].inum, kind)
      ensures Absent(old(nodes)[d].entries, name) ==>
        && Free(old(nodes), i) && (forall c :: Free(old(nodes), c) ==> i <= c)
        && nodes == Created(old(nodes), d, name, i, kind)
      ensures Absent(old(nodes)[d].entries, name) ==>
        (Valid() <==> Linked(old(nodes)[d]) && (kind == T_DIR ==> old(nodes)[d].nlink != NLINK_MAX))
    {
      hide Ok, Refs, Holds, NewFile, NewDir, Slot, Find;
      ghost var n0, at := nodes, Slot(nodes[d].entries);
      var found, k := DirLookup(d, name);
      if found {
        i := nodes[d].entries[k].inum;
        if kind == T_FILE && i < |nodes| && nodes[i].kind == T_FILE { return; }
        return 0;
      }
      SlotVacant(nodes[d].entries, name);
      i := IAlloc();
      nodes := nodes[i := Node(kind, 1, [])];
      if kind == T_DIR { Dots(i, d); }
      if kind == T_DIR { NewDirIs(n0, d, at, name, i); } else { NewFileIs(n0, d, at, name, i, kind); }
      var linked := DirLink(d, name, i);
      if kind == T_DIR {
        DirCreated(n0, pending, d, at, name, i);
      } else {
        FileCreated(n0, pending, d, at, name, i, kind);
      }
    }

    /** The entries of a new directory i in d, and d's link for its "..". */
    method Dots(i: nat, d: nat)
      requires 0 < i < |nodes| && d < |nodes| && i != d && nodes[i] == Node(T_DIR, 1, [])
      modifies this`nodes
      ensures nodes == WithDots(old(nodes), i, d)
    {
      nodes := nodes[d := nodes[d].(nlink := Inc(nodes[d].nlink))];
      SlotIs([], 0);
      var ok := DirLink(i, ".", i);
      SlotIs([Dirent(i, ".")], 1);
      assert nodes[i].entries == [Dirent(i, ".")];
      ok := DirLink(i, "..", d);
      assert nodes[i].entries == [Dirent(i, "."), Dirent(d, "..")];
    }

    /** ialloc: the first inode of kind 0. */
    method IAlloc() returns (i: nat)
      requires exists c :: Free(nodes, c)
      ensures Free(nodes, i) && forall c :: Free(nodes, c) ==> i <= c
    {
      ghost var c :| Free(nodes, c);
      i := 1;
      while nodes[i].kind != 0
        invariant 0 < i <= c && forall b :: Free(nodes, b) ==> i <= b
        decreases |nodes| - i
      {
        i := i + 1;
      }
    }
  }

  ghost function WithDots(nodes: seq<Node>, i: nat, d: nat): seq<Node>
    requires i < |nodes| && d < |nodes| && i != d
  {
    nodes[d := nodes[d].(nlink := Inc(nodes[d].nlink))][i := Node(T_DIR, 1, [Dirent(i, "."), Dirent(d, "..")])]
  }

  lemma NewDirIs(nodes: seq<Node>, d: nat, k: nat, name: Name, i: nat)
    requires d < |nodes| && i < |nodes| && i != d && k <= |nodes[d].entries|
    ensures var n := WithDots(nodes[i := Node(T_DIR, 1, [])], i, d);
      n[d].entries == nodes[d].entries && NewDir(nodes, d, k, name, i) == Enter(n, d, k, Dirent(i, name))
  {
  }

  lemma NewFileIs(nodes: seq<Node>, d: nat, k: nat, name: Name, i: nat, kind: nat)
    requires d < |nodes| && i < |nodes| && i != d && k <= |nodes[d].entries|
    ensures NewFile(nodes, d, k, name, i, kind) == Enter(nodes[i := Node(kind, 1, [])], d, k, Dirent(i, name))
  {
  }

  /** iput on the last reference: without links the inode is free, and its contents gone. */
  function Released(nodes: seq<Node>, ref: seq<nat>, i: nat): seq<Node>
    requires i < |nodes| == |ref|
  {
    if nodes[i].nlink == 0 && ref[i] == 0 then nodes[i := Node(0, 0, [])] else nodes
  }

  /** What create returns for a name that is there: the inode, for a file wanted and found. */
  function Existing(nodes: seq<Node>, i: nat, kind: nat): nat {
    if kind == T_FILE && i < |nodes| && nodes[i].kind == T_FILE then i else 0
  }

  /** The inodes with a new one, i, under the name. */
  function Created(nodes: seq<Node>, d: nat, name: Name, i: nat, kind: nat): seq<Node>
    requires d < |nodes| && i < |nodes| && i != d
  {
    var k := Slot(nodes[d].entries);
    if kind == T_DIR then NewDir(nodes, d, k, name, i) else NewFile(nodes, d, k, name, i, kind)
  }

  predicate EntryAt(nodes: seq<Node>, d: nat, name: Name) {
    && d < |nodes| && Find(nodes[d].entries, name) < |nodes[d].entries|
    && nodes[d].entries[Find(nodes[d].entries, name)].inum < |nodes|
  }

  /** The inodes after unlink of the entry in slot k, what nobody uses any more freed. */
  function Unlinked(nodes: seq<Node>, ref: seq<nat>, d: nat, k: nat): seq<Node>
    requires d < |nodes| == |ref| && k < |nodes[d].entries| && nodes[d].entries[k].inum < |nodes|
  {
    var i := nodes[d].entries[k].inum;
    Released(Detached(nodes, d, k, i), ref, i)
  }

  predicate Free(nodes: seq<Node>, c: nat) { 0 < c < |nodes| && nodes[c].kind == 0 }

  /** The name is there, and stands for a file or for a directory without entries. */
  ghost predicate Removable(nodes: seq<Node>, d: nat, name: Name)
    requires d < |nodes|
  {
    exists k :: Target(nodes, d, k, name)
  }

  ghost predicate Target(nodes: seq<Node>, d: nat, k: int, name: Name)
    requires d < |nodes|
  {
    && 0 <= k < |nodes[d].entries| && nodes[d].entries[k].name == name && 0 < nodes[d].entries[k].inum < |nodes|
    && (IsDir(nodes[nodes[d].entries[k].inum]) ==> NoEntries(nodes[nodes[d].entries[k].inum]))
  }

  lemma OkSize(nodes: seq<Node>, pending: seq<nat>)
    requires Ok(nodes, pending)
    ensures |pending| == |nodes|
  {
  }

  lemma DirNames(nodes: seq<Node>, d: nat)
    requires d < |nodes| && DirOk(nodes, d)
    ensures NamesUnique(nodes[d].entries)
  {
  }

  /** With the entry gone the name is gone. */
  lemma ErasedAbsent(es: seq<Dirent>, k: nat, name: Name)
    requires k < |es| && NamesUnique(es) && es[k].inum != 0 && es[k].name == name
    ensures Absent(es[k := Dirent(0, "")], name)
  {
  }

  /** The inodes after the writes of sys_unlink. */
  function Detached(nodes: seq<Node>, d: nat, k: nat, i: nat): (m: seq<Node>)
    requires d < |nodes| && k < |nodes[d].entries| && i < |nodes|
    ensures |m| == |nodes|
  {
    var n := Erase(nodes, d, k);
    var m := if IsDir(nodes[i]) then n[d := n[d].(nlink := n[d].nlink - 1)] else n;
    m[i := m[i].(nlink := m[i].nlink - 1)]
  }

  lemma DetachOk(nodes: seq<Node>, pending: seq<nat>, d: nat, k: nat, i: nat)
    requires Ok(nodes, pending) && Entered(nodes, d, k, i) && (IsDir(nodes[i]) ==> NoEntries(nodes[i]))
    requires nodes[i].kind != 0
    ensures i != d && |Erase(nodes, d, k)| == |nodes|
    ensures var m := Detached(nodes, d, k, i);
      && |m| == |nodes| && Ok(m, pending) && Linked(m[d]) && m[d].entries == nodes[d].entries[k := Dirent(0, "")]
      && m[i].kind == nodes[i].kind
  {
    hide Ok, NoEntries, Refs;
    NotSelf(nodes, d, i);
    if IsDir(nodes[i]) {
      DirUnlinked(nodes, pending, d, k, i);
      RemoveDirIs(nodes, d, k, i);
    } else {
      FileUnlinked(nodes, pending, d, k, i);
      assert Erase(nodes, d, k)[i] == nodes[i];
    }
  }

  /** A found entry that is neither "." nor ".." is in a directory that has not been removed. */
  lemma NotBare(nodes: seq<Node>, d: nat, k: nat)
    requires Emptied(nodes) && d < |nodes| && IsDir(nodes[d]) && k < |nodes[d].entries|
    requires nodes[d].entries[k].inum != 0 && nodes[d].entries[k].name != "." && nodes[d].entries[k].name != ".."
    ensures Linked(nodes[d])
  {
  }

  lemma {:induction false} DetachBare(nodes: seq<Node>, pending: seq<nat>, d: nat, k: nat, i: nat)
    requires Ok(nodes, pending) && Emptied(nodes)
    requires Entered(nodes, d, k, i) && (IsDir(nodes[i]) ==> NoEntries(nodes[i]))
    ensures Emptied(Detached(nodes, d, k, i))
  {
    NotSelf(nodes, d, i);
    hide Emptied;
    if IsDir(nodes[i]) {
      DirUnlinked(nodes, pending, d, k, i);
      EmptyDirCounts(nodes, d, k, i);
      DirAt(nodes, i);
      hide Ok, DirsOk, Refs, Entered, RemoveDir;
      assert Bare(nodes[i].entries);
    }
    hide Ok, DirsOk, Refs, DirOk;
    DetachSame(nodes, d, k, i);
    EmptiedSame(nodes, Detached(nodes, d, k, i), d, i);
  }

  lemma DetachSame(nodes: seq<Node>, d: nat, k: nat, i: nat)
    requires d < |nodes| && k < |nodes[d].entries| && i < |nodes| && i != d && Linked(nodes[d])
    requires IsDir(nodes[i]) ==> nodes[d].nlink >= 2
    ensures var m := Detached(nodes, d, k, i);
      && Linked(m[d]) && m[i].kind == nodes[i].kind && m[i].entries == nodes[i].entries
      && forall x :: 0 <= x < |nodes| && x != d && x != i ==> m[x] == nodes[x]
  {
  }

  lemma EmptiedSame(nodes: seq<Node>, m: seq<Node>, d: nat, i: nat)
    requires Emptied(nodes) && |m| == |nodes| && d < |m| && i < |m| && Linked(m[d])
    requires IsDir(m[i]) ==> Bare(m[i].entries)
    requires forall x :: 0 <= x < |nodes| && x != d && x != i ==> m[x] == nodes[x]
    ensures Emptied(m)
  {
  }

  lemma RemoveDirIs(nodes: seq<Node>, d: nat, k: nat, i: nat)
    requires d < |nodes| && k < |nodes[d].entries| && i < |nodes|
    ensures var n := Erase(nodes, d, k);
      && |n| == |nodes| && var m := n[d := n[d].(nlink := n[d].nlink - 1)];
      RemoveDir(nodes, d, k, i) == m[i := m[i].(nlink := m[i].nlink - 1)]
  {
  }

  lemma NotSelf(nodes: seq<Node>, d: nat, i: nat)
    requires d < |nodes| && i < |nodes| && Linked(nodes[d])
    ensures !IsDir(nodes[i]) ==> i != d
  {
  }

  lemma NotTarget(nodes: seq<Node>, d: nat, k: nat, name: Name)
    requires d < |nodes| && k < |nodes[d].entries| && 0 < nodes[d].entries[k].inum < |nodes|
    requires IsDir(nodes[nodes[d].entries[k].inum]) && !NoEntries(nodes[nodes[d].entries[k].inum])
    ensures !Target(nodes, d, k, name)
  {
  }

  lemma IsTarget(nodes: seq<Node>, d: nat, k: nat, name: Name)
    requires d < |nodes| && k < |nodes[d].entries| && 0 < nodes[d].entries[k].inum < |nodes|
    requires nodes[d].entries[k].name == name
    requires IsDir(nodes[nodes[d].entries[k].inum]) ==> NoEntries(nodes[nodes[d].entries[k].inum])
    ensures Target(nodes, d, k, name)
  {
  }

  lemma NotThere(nodes: seq<Node>, d: nat, name: Name)
    requires d < |nodes| && Absent(nodes[d].entries, name)
    ensures !Removable(nodes, d, name)
  {
  }

  lemma FoundEntry(nodes: seq<Node>, d: nat, k: nat, name: Name)
    requires d < |nodes| && Linked(nodes[d]) && DirOk(nodes, d) && k < |nodes[d].entries|
    requires nodes[d].entries[k].inum != 0
    requires nodes[d].entries[k].name == name && name != "." && name != ".."
    ensures Entered(nodes, d, k, nodes[d].entries[k].inum)
  {
  }

  lemma NamedOnce(nodes: seq<Node>, d: nat, k: nat, name: Name)
    requires d < |nodes| && DirOk(nodes, d) && k < |nodes[d].entries| && nodes[d].entries[k].inum != 0
    requires nodes[d].entries[k].name == name
    ensures Removable(nodes, d, name) <==> Target(nodes, d, k, name)
  {
  }
}
