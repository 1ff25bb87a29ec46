/** VirtualDirectory.importContent(original): the original's subtree is
    merged into this directory. A subdirectory whose name this directory
    does not have yet is cloned and pasted; one whose name it has is
    merged, recursively, into the first subdirectory of that name; every
    file is cloned and pasted, and a file name this directory already has
    ends the import with NotUniqueName. The lists walked are those of the
    state the import starts in: the read lock-down of the original and the
    write locks on this directory's lists keep them from changing. */
module Importing {
  import opened Wrappers
  import opened Tree
  import opened Locking = LockDown
  import opened FileOps = Files
  import opened Directories
  import opened Copying

  // ---------------------------------------------------------------------------
  // What an import may change

  /** The holds tryLockWriteFilesDirectories adds: the subdirectory list,
      then the file list, both for writing. */
  function WriteLists(d: NodeId): seq<Hold> {
    [Hold(DirsLock(d), Exclusive), Hold(FilesLock(d), Exclusive)]
  }

  /** Nobody holds either list lock of k. */
  predicate ListsFree(h: multiset<Hold>, k: NodeId) {
    && h[Hold(DirsLock(k), Exclusive)] == 0 && h[Hold(DirsLock(k), Shared)] == 0
    && h[Hold(FilesLock(k), Exclusive)] == 0 && h[Hold(FilesLock(k), Shared)] == 0
  }

  /** n' is the directory n with entries appended to its lists. */
  predicate Extends(n: Node, n': Node) {
    && SameHead(n, n') && n.kind.DirKind? && n'.kind.DirKind?
    && n.kind.dirs <= n'.kind.dirs && n.kind.files <= n'.kind.files
  }

  /** Node k went from n to n' keeping its outline, or, its list locks
      being free under the holds h, by entries appended to its lists. */
  predicate Grew(n: Node, n': Node, h: multiset<Hold>, k: NodeId) {
    Outline(n') == Outline(n) || (ListsFree(h, k) && Extends(n, n'))
  }

  /** Every node of m is in m' and grew there under h: an import changes
      only lists whose locks it could take, and only by appending. */
  predicate Grown(m: Nodes, m': Nodes, h: multiset<Hold>) {
    forall k | k in m :: k in m' && Grew(m[k], m'[k], h, k)
  }

  /** Every node of m is in m' with the same name, parent, deleted flag
      and kind, and every file of m keeps its outline: what an import's
      later steps need of the original's entries. */
  predicate Stays(m: Nodes, m': Nodes) {
    forall k | k in m :: k in m' && SameHead(m[k], m'[k]) && m'[k].kind.DirKind? == m[k].kind.DirKind?
                         && (m[k].kind.FileKind? ==> Outline(m'[k]) == Outline(m[k]))
  }

  /** After an import of o into d, which started from fs, f's d has a
      subdirectory carrying the name of each of o's subdirectories. */
  ghost predicate DirsImported(fs: FS, f: FS, d: NodeId, o: NodeId)
    requires IsDir(fs, o) && IsDir(f, d)
  {
    forall i | 0 <= i < |Dirs(fs, o)| ::
      IsDir(fs, Dirs(fs, o)[i]) && exists x | x in Dirs(f, d) :: x in f.nodes && NameOf(f, x) == NameOf(fs, Dirs(fs, o)[i])
  }

  /** After an import of o into d, which started from fs, f's d lists its
      files of fs followed by a copy of each of o's files, in order. */
  ghost predicate FilesImported(fs: FS, f: FS, d: NodeId, o: NodeId)
    requires IsDir(fs, d) && IsDir(fs, o) && IsDir(f, d)
  {
    && |Files(f, d)| == |Files(fs, d)| + |Files(fs, o)| && Files(fs, d) <= Files(f, d)
    && (forall i | 0 <= i < |Files(fs, o)| ::
          ChildOf(f.nodes, d, Files(f, d)[|Files(fs, d)| + i])
          && CopyOf(fs.nodes, f.nodes, Files(fs, o)[i], Files(f, d)[|Files(fs, d)| + i], fs.unused, 0))
  }

  /** No file name of o is among d's files' names. */
  ghost predicate FileNamesFresh(fs: FS, d: NodeId, o: NodeId)
    requires IsDir(fs, d) && IsDir(fs, o)
  {
    forall i, j | 0 <= i < |Files(fs, o)| && 0 <= j < |Files(fs, d)| && Files(fs, d)[j] in fs.nodes ::
      NameOf(fs, Files(fs, o)[i]) != NameOf(fs, Files(fs, d)[j])
  }

  /** Two steps of growth under the same holds are one. */
  lemma GrewTrans(n1: Node, n2: Node, n3: Node, h: multiset<Hold>, k: NodeId)
    requires Grew(n1, n2, h, k) && Grew(n2, n3, h, k)
    ensures Grew(n1, n3, h, k)
  {
    if Outline(n3) != Outline(n1) {
      assert ListsFree(h, k);
      if Outline(n2) == Outline(n1) {
        assert n1.kind == n2.kind;
      } else if Outline(n3) == Outline(n2) {
        assert n2.kind == n3.kind;
      }
    }
  }

  /** Growth allowed by fewer free locks is allowed by more. */
  lemma GrewMore(n: Node, n': Node, h: multiset<Hold>, h': multiset<Hold>, k: NodeId)
    requires Grew(n, n', h', k) && h <= h'
    ensures Grew(n, n', h, k)
  {
  }

  /** Growth keeps what Stays asks for. */
  lemma GrewStays(n: Node, n': Node, h: multiset<Hold>, k: NodeId)
    requires Grew(n, n', h, k)
    ensures SameHead(n, n') && n'.kind.DirKind? == n.kind.DirKind? && (n.kind.FileKind? ==> Outline(n') == Outline(n))
  {
  }

  /** The first entry of s called name: the inner loop of importContent
      over this directory's subdirectories, which runs once a clash is
      known. */
  method FindNamed(fs: FS, s: seq<NodeId>, name: string) returns (k: nat)
    requires !NameFree(fs, s, name)
    ensures k < |s| && NameOf(fs, s[k]) == name
    ensures forall j :: 0 <= j < k ==> NameOf(fs, s[j]) != name
  {
    k := 0;
    while NameOf(fs, s[k]) != name
      invariant k < |s| && exists j :: k <= j < |s| && NameOf(fs, s[j]) == name
      invariant forall j :: 0 <= j < k ==> NameOf(fs, s[j]) != name
      decreases |s| - k
    {
      k := k + 1;
    }
  }

  // ---------------------------------------------------------------------------
  // The locks

  /** The write locks on d's lists, granted on top of further holds,
      find both lists free of holds. */
  lemma WriteListsFree(fs: FS, extra: multiset<Hold>, d: NodeId)
    requires Grantable(fs.(holds := fs.holds + extra), WriteLists(d))
    ensures ListsFree(fs.holds, d)
  {
    var a := fs.(holds := fs.holds + extra);
    var hs := WriteLists(d);
    assert CanTake(a, hs[0]);
    assert hs[1..] == [hs[1]];
    assert CanTake(Take(a, hs[0]), hs[1]);
  }

  /** Taking dl and then d's write locks is taking dl + WriteLists(d). */
  lemma GrantSplit(fs: FS, dl: seq<Hold>, d: NodeId)
    ensures Grantable(fs, dl + WriteLists(d)) <==>
              Grantable(fs, dl) && Grantable(fs.(holds := fs.holds + multiset(dl)), WriteLists(d))
  {
    AcquireAppend(fs, dl, WriteLists(d), []);
  }

  /** A read hold on d's subdirectory list among dl refuses d's write
      locks after dl. */
  lemma ReadBlocksWrite(fs: FS, dl: seq<Hold>, d: NodeId)
    requires Hold(DirsLock(d), Shared) in dl
    ensures !Grantable(fs, dl + WriteLists(d))
  {
    GrantSplit(fs, dl, d);
    var a := fs.(holds := fs.holds + multiset(dl));
    assert Count(a, DirsLock(d), Shared) > 0;
    assert !CanTake(a, WriteLists(d)[0]);
  }

  // ---------------------------------------------------------------------------
  // The loops

  /** The file loop of importContent: each file of the original (read in
      `src`) whose name this directory's files do not have is cloned and
      pasted into d; the first clash gives back the import's holds `held`
      and ends it with NotUniqueName, the files pasted before it staying. */
  method ImportFiles(src: FS, fs: FS, d: NodeId, fls: seq<NodeId>, held: seq<Hold>, now: int) returns (r: Out<seq<NodeId>>)
    requires IsDir(fs, d) && Arena(fs) && Stays(src.nodes, fs.nodes)
    ensures r.res.Ok? ==>
              && |r.res.value| == |fls| && Arena(r.fs) && fs.unused <= r.fs.unused && r.fs.holds == fs.holds
              && IsDir(r.fs, d) && Files(r.fs, d) == Files(fs, d) + r.res.value && Dirs(r.fs, d) == Dirs(fs, d)
              && SameHead(fs.nodes[d], r.fs.nodes[d])
              && (forall k | k in fs.nodes && k != d :: k in r.fs.nodes && Outline(r.fs.nodes[k]) == Outline(fs.nodes[k]))
              && (forall i | 0 <= i < |fls| ::
                    IsFile(src, fls[i]) && ChildOf(r.fs.nodes, d, r.res.value[i])
                    && CopyOf(src.nodes, r.fs.nodes, fls[i], r.res.value[i], fs.unused, 0))
    ensures r.res.Ok? ==> forall i, j | 0 <= i < |fls| && 0 <= j < |Files(fs, d)| && Files(fs, d)[j] in fs.nodes ::
              NameOf(src, fls[i]) != NameOf(fs, Files(fs, d)[j])
    ensures |fls| > 0 && IsFile(src, fls[0]) && !NameFree(fs, Files(fs, d), NameOf(src, fls[0])) ==>
              r == Out(Release(fs, held), Err(NotUnique))
    decreases |fls|
  {
    if |fls| == 0 {
      return Out(fs, Ok([]));
    }
    var f := fls[0];
    if !IsFile(src, f) {
      return Out(fs, Err(NullPointer));
    }
    var free := CheckUnique(fs, Files(fs, d), NameOf(fs, f));
    if !free {
      return Out(Release(fs, held), Err(NotUnique));
    }
    var o := PasteFileCopy(src, fs, d, f, now);
    if o.res.Err? {
      return Out(o.fs, Err(o.res.error));
    }
    var id := o.res.value;
    var p := o.fs;
    var rest := ImportFiles(src, p, d, fls[1..], held, now);
    if rest.res.Err? {
      return Out(rest.fs, Err(rest.res.error));
    }
    r := Out(rest.fs, Ok([id] + rest.res.value));
    CopiesStep(src, fs, p, rest.fs, fls, d, false, id, rest.res.value, 0);
    FilesStep(src, fs, p, d, fls);
  }

  /** One turn of the file loop past the name check: file.clone(this),
      then paste. */
  method PasteFileCopy(src: FS, fs: FS, d: NodeId, f: NodeId, now: int) returns (r: Out<NodeId>)
    requires IsDir(fs, d) && Arena(fs) && Stays(src.nodes, fs.nodes) && IsFile(src, f)
    ensures r.res.Ok? ==>
              && r.res.value == fs.unused && fs.unused < r.fs.unused && Arena(r.fs) && r.fs.holds == fs.holds
              && IsDir(r.fs, d) && Files(r.fs, d) == Files(fs, d) + [fs.unused] && Dirs(r.fs, d) == Dirs(fs, d)
              && SameHead(fs.nodes[d], r.fs.nodes[d]) && Stays(src.nodes, r.fs.nodes)
              && (forall k | k in fs.nodes && k != d :: k in r.fs.nodes && Outline(r.fs.nodes[k]) == Outline(fs.nodes[k]))
              && ChildOf(r.fs.nodes, d, fs.unused) && CopyOf(src.nodes, r.fs.nodes, f, fs.unused, fs.unused, 0)
  {
    var o := CloneOne(fs, f, d, now);
    if o.res.Err? {
      return Out(o.fs, Err(o.res.error));
    }
    ClonedFile(src, fs, o.fs, f, d, now, 0);
    PastedCopy(src, fs, o.fs, f, d, false, 0);
    r := Out(Paste(o.fs, d, o.res.value), Ok(o.res.value));
    StaysStep(src.nodes, fs.nodes, r.fs.nodes, d);
  }

  /** Nodes of src that stay up to m stay up to m' when m' keeps every
      node of m but d, and d keeps its head and its kind. */
  lemma StaysStep(src: Nodes, m: Nodes, m': Nodes, d: NodeId)
    requires Stays(src, m) && d in m && d in m' && SameHead(m[d], m'[d]) && m[d].kind.DirKind? && m'[d].kind.DirKind?
    requires forall k | k in m && k != d :: k in m' && Outline(m'[k]) == Outline(m[k])
    ensures Stays(src, m')
  {
  }

  /** The first file's name was free among d's files, and the rest's
      were free among d's files after the first was pasted. */
  lemma FilesStep(src: FS, fs: FS, p: FS, d: NodeId, fls: seq<NodeId>)
    requires |fls| > 0 && IsFile(src, fls[0]) && IsDir(fs, d) && IsDir(p, d) && Stays(src.nodes, fs.nodes)
    requires NameFree(fs, Files(fs, d), NameOf(fs, fls[0]))
    requires Files(fs, d) <= Files(p, d) && SameHead(fs.nodes[d], p.nodes[d])
    requires forall k | k in fs.nodes && k != d :: k in p.nodes && Outline(p.nodes[k]) == Outline(fs.nodes[k])
    requires forall i, j | 0 <= i < |fls[1..]| && 0 <= j < |Files(p, d)| && Files(p, d)[j] in p.nodes ::
               NameOf(src, fls[1..][i]) != NameOf(p, Files(p, d)[j])
    ensures forall i, j | 0 <= i < |fls| && 0 <= j < |Files(fs, d)| && Files(fs, d)[j] in fs.nodes ::
              NameOf(src, fls[i]) != NameOf(fs, Files(fs, d)[j])
  {
    forall i, j | 0 <= i < |fls| && 0 <= j < |Files(fs, d)| && Files(fs, d)[j] in fs.nodes
      ensures NameOf(src, fls[i]) != NameOf(fs, Files(fs, d)[j])
    {
      var x := Files(fs, d)[j];
      if i == 0 {
        assert NameOf(fs, fls[0]) == NameOf(src, fls[0]);
      } else {
        assert Files(p, d)[j] == x && fls[1..][i - 1] == fls[i];
        assert NameOf(p, x) == NameOf(fs, x);
      }
    }
  }

  /** Nodes of src that stay up to m stay up to m' when m grew into m'. */
  lemma StaysGrown(src: Nodes, m: Nodes, m': Nodes, h: multiset<Hold>)
    requires Stays(src, m) && Grown(m, m', h)
    ensures Stays(src, m')
  {
    forall k | k in src
      ensures k in m' && SameHead(src[k], m'[k]) && m'[k].kind.DirKind? == src[k].kind.DirKind?
              && (src[k].kind.FileKind? ==> Outline(m'[k]) == Outline(src[k]))
    {
      GrewStays(m[k], m'[k], h, k);
    }
  }

  /** One turn of the subdirectory loop: a subdirectory y of the original
      whose name d's subdirectories do not have is cloned with d as parent
      and pasted; otherwise the first subdirectory of d with that name
      imports y's content. Either way d ends up with a subdirectory of y's
      name. */
  method ImportDir(src: FS, fs: FS, d: NodeId, y: NodeId, now: int, fuel: nat) returns (r: Out<()>)
    requires IsDir(fs, d) && Arena(fs) && Stays(src.nodes, fs.nodes) && IsDir(src, y)
    requires Count(fs, DirsLock(d), Exclusive) > 0
    ensures r.res.Ok? ==>
              && Arena(r.fs) && fs.unused <= r.fs.unused && r.fs.holds == fs.holds
              && IsDir(r.fs, d) && SameHead(fs.nodes[d], r.fs.nodes[d]) && Dirs(fs, d) <= Dirs(r.fs, d) && Files(r.fs, d) == Files(fs, d)
              && (forall k | k in fs.nodes && k != d :: k in r.fs.nodes && Grew(fs.nodes[k], r.fs.nodes[k], fs.holds, k))
              && Stays(src.nodes, r.fs.nodes)
              && (exists x | x in Dirs(r.fs, d) :: x in r.fs.nodes && NameOf(r.fs, x) == NameOf(src, y))
    ensures r.res.Ok? && NameFree(fs, Dirs(fs, d), NameOf(src, y)) ==>
              && Dirs(r.fs, d) == Dirs(fs, d) + [fs.unused] && ChildOf(r.fs.nodes, d, fs.unused)
              && CopyOf(fs.nodes, r.fs.nodes, y, fs.unused, fs.unused, fuel)
    decreases fuel, 2, 0
  {
    var free := CheckUnique(fs, Dirs(fs, d), NameOf(fs, y));
    if free {
      var c := CloneDir(fs, fs, y, d, now, fuel);
      if c.res.Err? {
        return Out(c.fs, Err(c.res.error));
      }
      PastedCopy(fs, fs, c.fs, y, d, true, fuel);
      r := Out(Paste(c.fs, d, c.res.value), Ok(()));
      StaysStep(src.nodes, fs.nodes, r.fs.nodes, d);
      assert Dirs(r.fs, d)[|Dirs(fs, d)|] == fs.unused;
      assert NameOf(r.fs, fs.unused) == NameOf(fs, y);
    } else {
      var k := FindNamed(fs, Dirs(fs, d), NameOf(fs, y));
      var x := Dirs(fs, d)[k];
      if !IsDir(fs, x) {
        return Out(fs, Err(NullPointer));
      }
      r := ImportContent(fs, x, y, now, fuel);
      if r.res.Err? {
        return;
      }
      Merged(src, fs, r.fs, d, x);
    }
  }

  /** After an import into x under holds that include a write hold on d's
      subdirectory list, d is as it was and x still carries its name. */
  lemma Merged(src: FS, fs: FS, m: FS, d: NodeId, x: NodeId)
    requires IsDir(fs, d) && Stays(src.nodes, fs.nodes) && Count(fs, DirsLock(d), Exclusive) > 0
    requires x in Dirs(fs, d) && x in fs.nodes && m.holds == fs.holds && Grown(fs.nodes, m.nodes, fs.holds)
    ensures IsDir(m, d) && SameHead(fs.nodes[d], m.nodes[d]) && Dirs(m, d) == Dirs(fs, d) && Files(m, d) == Files(fs, d)
    ensures forall k | k in fs.nodes && k != d :: k in m.nodes && Grew(fs.nodes[k], m.nodes[k], fs.holds, k)
    ensures Stays(src.nodes, m.nodes)
    ensures x in Dirs(m, d) && x in m.nodes && NameOf(m, x) == NameOf(fs, x)
  {
    assert !ListsFree(fs.holds, d);
    assert Outline(m.nodes[d]) == Outline(fs.nodes[d]);
    StaysGrown(src.nodes, fs.nodes, m.nodes, fs.holds);
    GrewStays(fs.nodes[x], m.nodes[x], fs.holds, x);
  }

  /** The subdirectory loop of importContent, over the original's
      subdirectories `ds` as read in `src`. */
  method ImportDirs(src: FS, fs: FS, d: NodeId, ds: seq<NodeId>, now: int, fuel: nat) returns (r: Out<()>)
    requires IsDir(fs, d) && Arena(fs) && Stays(src.nodes, fs.nodes)
    requires Count(fs, DirsLock(d), Exclusive) > 0
    ensures r.res.Ok? ==>
              && Arena(r.fs) && fs.unused <= r.fs.unused && r.fs.holds == fs.holds
              && IsDir(r.fs, d) && SameHead(fs.nodes[d], r.fs.nodes[d]) && Dirs(fs, d) <= Dirs(r.fs, d) && Files(r.fs, d) == Files(fs, d)
              && (forall k | k in fs.nodes && k != d :: k in r.fs.nodes && Grew(fs.nodes[k], r.fs.nodes[k], fs.holds, k))
              && Stays(src.nodes, r.fs.nodes)
              && (forall i | 0 <= i < |ds| ::
                    IsDir(src, ds[i]) && exists x | x in Dirs(r.fs, d) :: x in r.fs.nodes && NameOf(r.fs, x) == NameOf(src, ds[i]))
    decreases fuel, 3, |ds|
  {
    if |ds| == 0 {
      return Out(fs, Ok(()));
    }
    if !IsDir(src, ds[0]) {
      return Out(fs, Err(NullPointer));
    }
    var p := ImportDir(src, fs, d, ds[0], now, fuel);
    if p.res.Err? {
      return p;
    }
    r := ImportDirs(src, p.fs, d, ds[1..], now, fuel);
    if r.res.Err? {
      return;
    }
    DirsStep(src, fs, p.fs, r.fs, d, ds);
  }

  /** The first turn and the rest of the subdirectory loop make up the
      loop. */
  lemma DirsStep(src: FS, fs: FS, p: FS, q: FS, d: NodeId, ds: seq<NodeId>)
    requires |ds| > 0 && IsDir(src, ds[0]) && IsDir(fs, d)
    requires IsDir(p, d) && SameHead(fs.nodes[d], p.nodes[d]) && Dirs(fs, d) <= Dirs(p, d) && Files(p, d) == Files(fs, d)
    requires p.holds == fs.holds && forall k | k in fs.nodes && k != d :: k in p.nodes && Grew(fs.nodes[k], p.nodes[k], fs.holds, k)
    requires exists x | x in Dirs(p, d) :: x in p.nodes && NameOf(p, x) == NameOf(src, ds[0])
    requires IsDir(q, d) && SameHead(p.nodes[d], q.nodes[d]) && Dirs(p, d) <= Dirs(q, d) && Files(q, d) == Files(p, d)
    requires forall k | k in p.nodes && k != d :: k in q.nodes && Grew(p.nodes[k], q.nodes[k], p.holds, k)
    requires forall i | 0 <= i < |ds[1..]| ::
               IsDir(src, ds[1..][i]) && exists x | x in Dirs(q, d) :: x in q.nodes && NameOf(q, x) == NameOf(src, ds[1..][i])
    ensures Dirs(fs, d) <= Dirs(q, d) && SameHead(fs.nodes[d], q.nodes[d])
    ensures forall k | k in fs.nodes && k != d :: k in q.nodes && Grew(fs.nodes[k], q.nodes[k], fs.holds, k)
    ensures forall i | 0 <= i < |ds| ::
              IsDir(src, ds[i]) && exists x | x in Dirs(q, d) :: x in q.nodes && NameOf(q, x) == NameOf(src, ds[i])
  {
    forall k | k in fs.nodes && k != d ensures k in q.nodes && Grew(fs.nodes[k], q.nodes[k], fs.holds, k) {
      GrewTrans(fs.nodes[k], p.nodes[k], q.nodes[k], fs.holds, k);
    }
    var x0 :| x0 in Dirs(p, d) && x0 in p.nodes && NameOf(p, x0) == NameOf(src, ds[0]);
    assert x0 in Dirs(q, d) && x0 in q.nodes;
    if x0 != d {
      GrewStays(p.nodes[x0], q.nodes[x0], p.holds, x0);
    }
    assert NameOf(q, x0) == NameOf(src, ds[0]);
    forall i | 0 <= i < |ds|
      ensures IsDir(src, ds[i]) && exists x | x in Dirs(q, d) :: x in q.nodes && NameOf(q, x) == NameOf(src, ds[i])
    {
      if i > 0 {
        assert ds[1..][i - 1] == ds[i];
      }
    }
  }

  /** The locks importContent takes: the original's read lock-down, then
      this directory's list write locks; a refusal gives every hold back. */
  method ImportLocks(fs: FS, d: NodeId, o: NodeId, fuel: nat) returns (a: Out<seq<Hold>>)
    ensures a.fs.nodes == fs.nodes && a.fs.unused == fs.unused && a.fs.flags == fs.flags
    ensures a.res.Ok? ==> && DownLocks(fs, o, Shared, fuel).Some? && ListsFree(fs.holds, d)
                          && a.res.value == DownLocks(fs, o, Shared, fuel).value + WriteLists(d)
                          && a.fs == fs.(holds := fs.holds + multiset(a.res.value))
    ensures DownLocks(fs, o, Shared, fuel).Some? ==>
              (a.res.Ok? <==> Grantable(fs, DownLocks(fs, o, Shared, fuel).value + WriteLists(d)))
    ensures DownLocks(fs, o, Shared, fuel).Some? && a.res.Err? ==> a == Out(fs, Err(Locked))
  {
    var o1 := ReadLockDown(fs, o, fuel);
    if o1.res.Err? {
      if DownLocks(fs, o, Shared, fuel).Some? {
        GrantSplit(fs, DownLocks(fs, o, Shared, fuel).value, d);
      }
      return Out(o1.fs, Err(o1.res.error));
    }
    a := TakeWriteLists(fs, o1.fs, o1.res.value, d);
  }

  /** The second half of ImportLocks: d's write locks on top of the
      lock-down dl already held in o. */
  method TakeWriteLists(fs: FS, o: FS, dl: seq<Hold>, d: NodeId) returns (a: Out<seq<Hold>>)
    requires Grantable(fs, dl) && o == fs.(holds := fs.holds + multiset(dl))
    ensures a.fs.nodes == fs.nodes && a.fs.unused == fs.unused && a.fs.flags == fs.flags
    ensures a.res.Ok? ==> && ListsFree(fs.holds, d) && a.res.value == dl + WriteLists(d)
                          && a.fs == fs.(holds := fs.holds + multiset(a.res.value))
    ensures a.res.Ok? <==> Grantable(fs, dl + WriteLists(d))
    ensures a.res.Err? ==> a == Out(fs, Err(Locked))
  {
    GrantSplit(fs, dl, d);
    a := TakeHolds(o, WriteLists(d), dl);
    if a.res.Err? {
      assert o.holds - multiset(dl) == fs.holds;
      return;
    }
    WriteListsFree(fs, multiset(dl), d);
    assert multiset(dl + WriteLists(d)) == multiset(dl) + multiset(WriteLists(d));
  }

  /** importContent(original) into d: ImportLocks, the subdirectory loop,
      the file loop, the holds given back. The import is refused, with
      nothing held, when the locks are; in particular when d is the
      original or lies in its subtree. A successful import leaves the
      holds as they were, only appends to lists whose locks it could take,
      leaves d with a subdirectory of every subdirectory's name of the
      original, and appends to d's files a copy of each of the original's
      files, none of whose names d's files had. Failures past the locks
      (a clash, a nested refusal, a clone that fails) leave what was
      pasted in place; only the file clash gives the holds back. */
  method ImportContent(fs: FS, d: NodeId, o: NodeId, now: int, fuel: nat) returns (r: Out<()>)
    requires IsDir(fs, d) && IsDir(fs, o) && Arena(fs)
    ensures DownLocks(fs, o, Shared, fuel).Some? && !Grantable(fs, DownLocks(fs, o, Shared, fuel).value + WriteLists(d)) ==>
              r == Out(fs, Err(Locked))
    ensures forall depth: nat :: DownLocks(fs, o, Shared, fuel).Some? && Below(fs, o, d, depth) ==>
              r == Out(fs, Err(Locked))
    ensures r.res.Ok? ==>
              && Arena(r.fs) && fs.unused <= r.fs.unused && r.fs.holds == fs.holds
              && IsDir(r.fs, d) && Grown(fs.nodes, r.fs.nodes, fs.holds) && Dirs(fs, d) <= Dirs(r.fs, d)
    ensures r.res.Ok? ==> DirsImported(fs, r.fs, d, o) && FilesImported(fs, r.fs, d, o) && FileNamesFresh(fs, d, o)
    decreases fuel, 1
  {
    ImportRefused(fs, d, o, fuel);
    var b := ImportLocks(fs, d, o, fuel);
    if b.res.Err? {
      return Out(b.fs, Err(b.res.error));
    }
    r := ImportMerge(fs, b.fs, d, o, b.res.value, now, fuel);
  }

  /** importContent past its locks, `held` being taken on top of the
      holds of fs: the subdirectory loop, the file loop, the holds given
      back. */
  method ImportMerge(fs: FS, b: FS, d: NodeId, o: NodeId, held: seq<Hold>, now: int, fuel: nat) returns (r: Out<()>)
    requires IsDir(fs, d) && IsDir(fs, o) && Arena(fs) && fuel > 0
    requires ListsFree(fs.holds, d) && Hold(DirsLock(d), Exclusive) in held && b == fs.(holds := fs.holds + multiset(held))
    ensures r.res.Ok? ==>
              && Arena(r.fs) && fs.unused <= r.fs.unused && r.fs.holds == fs.holds
              && IsDir(r.fs, d) && Grown(fs.nodes, r.fs.nodes, fs.holds) && Dirs(fs, d) <= Dirs(r.fs, d)
    ensures r.res.Ok? ==> DirsImported(fs, r.fs, d, o) && FilesImported(fs, r.fs, d, o) && FileNamesFresh(fs, d, o)
    decreases fuel, 0
  {
    var c := ImportDirs(fs, b, d, Dirs(fs, o), now, fuel - 1);
    if c.res.Err? {
      return Out(c.fs, Err(c.res.error));
    }
    var e := ImportFiles(fs, c.fs, d, Files(fs, o), held, now);
    if e.res.Err? {
      return Out(e.fs, Err(e.res.error));
    }
    r := Out(Release(e.fs, held), Ok(()));
    ImportGrown(fs, b, c.fs, e.fs, r.fs, d, held);
    ImportDirsDone(fs, c.fs, r.fs, d, o);
    ImportFilesDone(fs, c.fs, e.fs, r.fs, d, o, e.res.value);
    ImportNamesFresh(fs, c.fs, d, o);
  }

  /** A read hold on d's subdirectory list, which the original's
      lock-down takes when d lies in its subtree, refuses the import's
      locks. */
  lemma ImportRefused(fs: FS, d: NodeId, o: NodeId, fuel: nat)
    ensures forall depth: nat :: DownLocks(fs, o, Shared, fuel).Some? && Below(fs, o, d, depth) ==>
              !Grantable(fs, DownLocks(fs, o, Shared, fuel).value + WriteLists(d))
  {
    forall depth: nat | DownLocks(fs, o, Shared, fuel).Some? && Below(fs, o, d, depth)
      ensures !Grantable(fs, DownLocks(fs, o, Shared, fuel).value + WriteLists(d))
    {
      DirsLockListed(fs, o, d, Shared, depth, fuel);
      ReadBlocksWrite(fs, DownLocks(fs, o, Shared, fuel).value, d);
    }
  }

  /** The subdirectory names at the end of a successful import: the file
      loop changes no node's name and keeps d's subdirectory list. */
  lemma ImportDirsDone(fs: FS, c: FS, f: FS, d: NodeId, o: NodeId)
    requires IsDir(fs, o) && IsDir(c, d) && IsDir(f, d) && Dirs(f, d) == Dirs(c, d) && SameHead(c.nodes[d], f.nodes[d])
    requires forall k | k in c.nodes && k != d :: k in f.nodes && Outline(f.nodes[k]) == Outline(c.nodes[k])
    requires forall i | 0 <= i < |Dirs(fs, o)| ::
               IsDir(fs, Dirs(fs, o)[i]) && exists x | x in Dirs(c, d) :: x in c.nodes && NameOf(c, x) == NameOf(fs, Dirs(fs, o)[i])
    ensures DirsImported(fs, f, d, o)
  {
    forall i | 0 <= i < |Dirs(fs, o)|
      ensures exists x | x in Dirs(f, d) :: x in f.nodes && NameOf(f, x) == NameOf(fs, Dirs(fs, o)[i])
    {
      var x :| x in Dirs(c, d) && x in c.nodes && NameOf(c, x) == NameOf(fs, Dirs(fs, o)[i]);
      assert NameOf(f, x) == NameOf(c, x);
    }
  }

  /** The holds and the nodes at the end of a successful import. */
  lemma ImportGrown(fs: FS, b: FS, c: FS, e: FS, f: FS, d: NodeId, held: seq<Hold>)
    requires IsDir(fs, d) && ListsFree(fs.holds, d) && b == fs.(holds := fs.holds + multiset(held))
    requires IsDir(c, d) && SameHead(b.nodes[d], c.nodes[d]) && Dirs(b, d) <= Dirs(c, d) && Files(c, d) == Files(b, d)
    requires c.holds == b.holds && forall k | k in b.nodes && k != d :: k in c.nodes && Grew(b.nodes[k], c.nodes[k], b.holds, k)
    requires IsDir(e, d) && SameHead(c.nodes[d], e.nodes[d]) && Dirs(e, d) == Dirs(c, d) && Files(c, d) <= Files(e, d)
    requires e.holds == c.holds && forall k | k in c.nodes && k != d :: k in e.nodes && Outline(e.nodes[k]) == Outline(c.nodes[k])
    requires f == Release(e, held)
    ensures f.holds == fs.holds && Grown(fs.nodes, f.nodes, fs.holds)
  {
    forall k | k in fs.nodes ensures k in f.nodes && Grew(fs.nodes[k], f.nodes[k], fs.holds, k) {
      if k == d {
        assert Extends(fs.nodes[k], f.nodes[k]);
      } else {
        GrewMore(b.nodes[k], c.nodes[k], fs.holds, b.holds, k);
        GrewTrans(fs.nodes[k], c.nodes[k], e.nodes[k], fs.holds, k);
      }
    }
  }

  /** The files at the end of a successful import. */
  lemma ImportFilesDone(fs: FS, c: FS, e: FS, f: FS, d: NodeId, o: NodeId, ids: seq<NodeId>)
    requires IsDir(fs, d) && IsDir(fs, o) && IsDir(c, d) && Files(c, d) == Files(fs, d) && fs.unused <= c.unused
    requires |ids| == |Files(fs, o)| && IsDir(e, d) && Files(e, d) == Files(c, d) + ids
    requires forall i | 0 <= i < |Files(fs, o)| ::
               ChildOf(e.nodes, d, ids[i]) && CopyOf(fs.nodes, e.nodes, Files(fs, o)[i], ids[i], c.unused, 0)
    requires f.nodes == e.nodes
    ensures IsDir(f, d) && |Files(f, d)| == |Files(fs, d)| + |Files(fs, o)| && Files(fs, d) <= Files(f, d)
    ensures forall i | 0 <= i < |Files(fs, o)| ::
              ChildOf(f.nodes, d, Files(f, d)[|Files(fs, d)| + i])
              && CopyOf(fs.nodes, f.nodes, Files(fs, o)[i], Files(f, d)[|Files(fs, d)| + i], fs.unused, 0)
  {
    assert IsDir(f, d) && Files(f, d) == Files(fs, d) + ids;
    var n := |Files(fs, d)|;
    forall i | 0 <= i < |Files(fs, o)|
      ensures ChildOf(f.nodes, d, Files(f, d)[n + i]) && CopyOf(fs.nodes, f.nodes, Files(fs, o)[i], Files(f, d)[n + i], fs.unused, 0)
    {
      assert Files(f, d)[n + i] == ids[i];
      CopyKept(fs.nodes, e.nodes, f.nodes, Files(fs, o)[i], ids[i], c.unused, fs.unused, 0);
    }
  }

  /** The file loop's name checks, made against d's files as the
      subdirectory loop left them, were checks against d's files at the
      start. */
  lemma ImportNamesFresh(fs: FS, c: FS, d: NodeId, o: NodeId)
    requires IsDir(fs, d) && IsDir(fs, o) && IsDir(c, d) && Files(c, d) == Files(fs, d)
    requires Stays(fs.nodes, c.nodes)
    requires forall i, j | 0 <= i < |Files(fs, o)| && 0 <= j < |Files(c, d)| && Files(c, d)[j] in c.nodes ::
               NameOf(fs, Files(fs, o)[i]) != NameOf(c, Files(c, d)[j])
    ensures FileNamesFresh(fs, d, o)
  {
    forall i, j | 0 <= i < |Files(fs, o)| && 0 <= j < |Files(fs, d)| && Files(fs, d)[j] in fs.nodes
      ensures NameOf(fs, Files(fs, o)[i]) != NameOf(fs, Files(fs, d)[j])
    {
      var x := Files(fs, d)[j];
      assert NameOf(c, x) == NameOf(fs, x);
    }
  }
}
