/** VirtualDirectory's deep clone, copy and importContent. A clone reads
    the original subtree from the state it starts in (`src`): it only ever
    creates nodes and pastes into nodes it created, so the lists it reads
    are the ones the source's loops walk, and the contracts below show the
    original keeps its outline throughout. */
module Copying {
  import opened Wrappers
  import opened Tree
  import opened Locking = LockDown
  import opened FileOps = Files
  import opened Directories

  // ---------------------------------------------------------------------------
  // what a copy is

  /** Every node of m is still in m', with its name, parent, deleted flag
      and lists (file contents and cached references aside). */
  predicate Keeps(m: Nodes, m': Nodes) {
    forall k | k in m :: k in m' && Outline(m'[k]) == Outline(m[k])
  }

  /** x is a node of n whose parent is b. */
  predicate ChildOf(n: Nodes, b: NodeId, x: NodeId) {
    x in n && n[x].parent == Some(b)
  }

  /** b in n is a copy of a in src, made of nodes numbered `lo` or more (so
      none of them is a node of an arena below `lo`): the same name, not
      deleted, the same kind; for a directory, as many subdirectories and
      files as a has, in order, each a copy of a's entry at that place whose
      parent is b. `depth` bounds the levels looked at. */
  predicate CopyOf(src: Nodes, n: Nodes, a: NodeId, b: NodeId, lo: NodeId, depth: nat)
    decreases depth
  {
    && a in src && b in n && lo <= b
    && n[b].name == src[a].name && !n[b].deleted
    && n[b].kind.DirKind? == src[a].kind.DirKind?
    && (src[a].kind.DirKind? ==>
          var da := src[a].kind.dirs;
          var fa := src[a].kind.files;
          var db := n[b].kind.dirs;
          var fb := n[b].kind.files;
          && depth > 0 && |db| == |da| && |fb| == |fa|
          && (forall i | 0 <= i < |da| :: ChildOf(n, b, db[i]) && CopyOf(src, n, da[i], db[i], lo, depth - 1))
          && (forall i | 0 <= i < |fa| :: ChildOf(n, b, fb[i]) && CopyOf(src, n, fa[i], fb[i], lo, depth - 1)))
  }

  /** A copy stays a copy while the nodes numbered `lo` or more keep their
      outline, and it is a copy for any lower bound below `lo` too. */
  lemma {:induction false} CopyKept(src: Nodes, n: Nodes, n': Nodes, a: NodeId, b: NodeId, lo: NodeId, lo': NodeId, depth: nat)
    requires CopyOf(src, n, a, b, lo, depth) && lo' <= lo
    requires forall k | k in n && lo <= k :: k in n' && Outline(n'[k]) == Outline(n[k])
    ensures CopyOf(src, n', a, b, lo', depth)
    decreases depth
  {
    assert Outline(n'[b]) == Outline(n[b]);
    if src[a].kind.DirKind? {
      var da := src[a].kind.dirs;
      var fa := src[a].kind.files;
      var db := n[b].kind.dirs;
      var fb := n[b].kind.files;
      assert n'[b].kind.dirs == db && n'[b].kind.files == fb;
      forall i | 0 <= i < |da| ensures ChildOf(n', b, db[i]) && CopyOf(src, n', da[i], db[i], lo', depth - 1) {
        CopyKept(src, n, n', da[i], db[i], lo, lo', depth - 1);
        assert Outline(n'[db[i]]) == Outline(n[db[i]]);
      }
      forall i | 0 <= i < |fa| ensures ChildOf(n', b, fb[i]) && CopyOf(src, n', fa[i], fb[i], lo', depth - 1) {
        CopyKept(src, n, n', fa[i], fb[i], lo, lo', depth - 1);
        assert Outline(n'[fb[i]]) == Outline(n[fb[i]]);
      }
    }
  }

  // ---------------------------------------------------------------------------
  // clone

  /** The part of a node a paste into it leaves alone. */
  predicate SameHead(n: Node, n': Node) {
    n'.name == n.name && n'.parent == n.parent && n'.deleted == n.deleted
  }

  /** clone(destination) of a directory: a new directory of the same name
      whose parent is the destination (EmptyName for an empty name), then
      every subdirectory cloned into it and pasted, then every file. The
      destination's lists are not touched: copy pastes the clone. The new
      directory is the next unused id; the result is a copy of the original
      made of new nodes only, every node there was keeps its outline, and
      every hold taken on the way is given back. */
  method CloneDir(src: FS, fs: FS, d: NodeId, dest: NodeId, now: int, fuel: nat) returns (r: Out<NodeId>)
    requires IsDir(src, d) && Arena(fs) && Keeps(src.nodes, fs.nodes)
    ensures r.res.Ok? ==>
              && r.res.value == fs.unused && fs.unused < r.fs.unused && Arena(r.fs) && r.fs.holds == fs.holds
              && Keeps(fs.nodes, r.fs.nodes) && ChildOf(r.fs.nodes, dest, fs.unused)
              && CopyOf(src.nodes, r.fs.nodes, d, fs.unused, fs.unused, fuel)
    decreases fuel, 0
  {
    if fuel == 0 {
      return Out(fs, Err(IOError));
    }
    var made := NewNode(src.nodes[d].name, Some(dest), false, DirKind([], []));
    if made.Err? {
      return Out(fs, Err(made.error));
    }
    var (fs1, c) := Alloc(fs, made.value);
    var a := CloneDirs(src, fs1, Dirs(src, d), c, now, fuel - 1);
    if a.res.Err? {
      return Out(a.fs, Err(a.res.error));
    }
    var b := CloneFiles(src, a.fs, Files(src, d), c, now, fuel - 1);
    if b.res.Err? {
      return Out(b.fs, Err(b.res.error));
    }
    r := Out(b.fs, Ok(c));
    CloneDone(src, fs, fs1, a.fs, b.fs, d, dest, c, a.res.value, b.res.value, fuel);
  }

  /** The new directory with its subdirectories' copies and then its
      files' copies pasted in is a copy of the original. */
  lemma CloneDone(src: FS, fs: FS, fs1: FS, a: FS, b: FS, d: NodeId, dest: NodeId, c: NodeId,
                  ds: seq<NodeId>, fls: seq<NodeId>, fuel: nat)
    requires IsDir(src, d) && Arena(fs) && Keeps(src.nodes, fs.nodes) && fuel > 0
    requires c == fs.unused && fs1.nodes == fs.nodes[c := Node(src.nodes[d].name, Some(dest), false, false, DirKind([], []))]
    requires fs1.unused == c + 1 && src.nodes[d].name != ""
    requires |ds| == |Dirs(src, d)| && fs1.unused <= a.unused && a.unused <= b.unused
    requires IsDir(a, c) && Dirs(a, c) == ds && Files(a, c) == [] && SameHead(fs1.nodes[c], a.nodes[c])
    requires forall k | k in fs1.nodes && k != c :: k in a.nodes && Outline(a.nodes[k]) == Outline(fs1.nodes[k])
    requires forall i | 0 <= i < |ds| :: ChildOf(a.nodes, c, ds[i]) && CopyOf(src.nodes, a.nodes, Dirs(src, d)[i], ds[i], fs1.unused, fuel - 1)
    requires |fls| == |Files(src, d)|
    requires IsDir(b, c) && Files(b, c) == fls && Dirs(b, c) == ds && SameHead(a.nodes[c], b.nodes[c])
    requires forall k | k in a.nodes && k != c :: k in b.nodes && Outline(b.nodes[k]) == Outline(a.nodes[k])
    requires forall i | 0 <= i < |fls| :: ChildOf(b.nodes, c, fls[i]) && CopyOf(src.nodes, b.nodes, Files(src, d)[i], fls[i], a.unused, fuel - 1)
    ensures Keeps(fs.nodes, b.nodes) && ChildOf(b.nodes, dest, c)
    ensures CopyOf(src.nodes, b.nodes, d, c, c, fuel)
  {
    forall i | 0 <= i < |ds| ensures ChildOf(b.nodes, c, ds[i]) && CopyOf(src.nodes, b.nodes, Dirs(src, d)[i], ds[i], c, fuel - 1) {
      CopyKept(src.nodes, a.nodes, b.nodes, Dirs(src, d)[i], ds[i], fs1.unused, c, fuel - 1);
      assert Outline(b.nodes[ds[i]]) == Outline(a.nodes[ds[i]]);
    }
    forall i | 0 <= i < |fls| ensures CopyOf(src.nodes, b.nodes, Files(src, d)[i], fls[i], c, fuel - 1) {
      CopyKept(src.nodes, b.nodes, b.nodes, Files(src, d)[i], fls[i], a.unused, c, fuel - 1);
    }
    forall k | k in fs.nodes ensures k in b.nodes && Outline(b.nodes[k]) == Outline(fs.nodes[k]) {
      assert k != c;
    }
  }

  /** The subdirectory loop of clone(destination): each subdirectory of
      the original cloned with the new directory `c` as destination, and
      pasted into c. */
  method CloneDirs(src: FS, fs: FS, ds: seq<NodeId>, c: NodeId, now: int, fuel: nat) returns (r: Out<seq<NodeId>>)
    requires IsDir(fs, c) && c < fs.unused && c !in src.nodes && Arena(fs) && Keeps(src.nodes, fs.nodes)
    ensures r.res.Ok? ==>
              && |r.res.value| == |ds| && Arena(r.fs) && fs.unused <= r.fs.unused && r.fs.holds == fs.holds
              && IsDir(r.fs, c) && Dirs(r.fs, c) == Dirs(fs, c) + r.res.value && Files(r.fs, c) == Files(fs, c)
              && SameHead(fs.nodes[c], r.fs.nodes[c])
              && (forall k | k in fs.nodes && k != c :: k in r.fs.nodes && Outline(r.fs.nodes[k]) == Outline(fs.nodes[k]))
              && (forall i | 0 <= i < |ds| ::
                    ChildOf(r.fs.nodes, c, r.res.value[i]) && CopyOf(src.nodes, r.fs.nodes, ds[i], r.res.value[i], fs.unused, fuel))
    decreases fuel, 1, |ds|
  {
    if |ds| == 0 {
      return Out(fs, Ok([]));
    }
    if !IsDir(src, ds[0]) {
      return Out(fs, Err(NullPointer));
    }
    var o := CloneDir(src, fs, ds[0], c, now, fuel);
    if o.res.Err? {
      return Out(o.fs, Err(o.res.error));
    }
    var id := o.res.value;
    PastedCopy(src, fs, o.fs, ds[0], c, true, fuel);
    var p := Paste(o.fs, c, id);
    KeepsTrans(src.nodes, fs.nodes, p.nodes, c);
    var rest := CloneDirs(src, p, ds[1..], c, now, fuel);
    if rest.res.Err? {
      return Out(rest.fs, Err(rest.res.error));
    }
    r := Out(rest.fs, Ok([id] + rest.res.value));
    CopiesStep(src, fs, p, rest.fs, ds, c, true, id, rest.res.value, fuel);
  }

  /** Nodes of src kept up to m stay kept when m' keeps all of m but c,
      which src does not have. */
  lemma KeepsTrans(src: Nodes, m: Nodes, m': Nodes, c: NodeId)
    requires Keeps(src, m) && c !in src
    requires forall k | k in m && k != c :: k in m' && Outline(m'[k]) == Outline(m[k])
    ensures Keeps(src, m')
  {
  }

  /** The file loop of clone(destination): each file of the original
      cloned (VirtualFile.clone, content and all) with the new directory `c`
      as destination, and pasted into c. The copies are new nodes, in the
      files' order, and nothing but c changes among the nodes there were. */
  method CloneFiles(src: FS, fs: FS, fls: seq<NodeId>, c: NodeId, now: int, ghost depth: nat) returns (r: Out<seq<NodeId>>)
    requires IsDir(fs, c) && c < fs.unused && c !in src.nodes && Arena(fs) && Keeps(src.nodes, fs.nodes)
    ensures r.res.Ok? ==>
              && |r.res.value| == |fls| && Arena(r.fs) && fs.unused <= r.fs.unused && r.fs.holds == fs.holds
              && IsDir(r.fs, c) && Files(r.fs, c) == Files(fs, c) + r.res.value && Dirs(r.fs, c) == Dirs(fs, c)
              && SameHead(fs.nodes[c], r.fs.nodes[c])
              && (forall k | k in fs.nodes && k != c :: k in r.fs.nodes && Outline(r.fs.nodes[k]) == Outline(fs.nodes[k]))
              && (forall i | 0 <= i < |fls| ::
                    ChildOf(r.fs.nodes, c, r.res.value[i]) && CopyOf(src.nodes, r.fs.nodes, fls[i], r.res.value[i], fs.unused, depth))
    decreases |fls|
  {
    if |fls| == 0 {
      return Out(fs, Ok([]));
    }
    var f := fls[0];
    if !IsFile(src, f) {
      return Out(fs, Err(NullPointer));
    }
    var o := CloneOne(fs, f, c, now);
    if o.res.Err? {
      return Out(o.fs, Err(o.res.error));
    }
    var id := o.res.value;
    ClonedFile(src, fs, o.fs, f, c, now, depth);
    PastedCopy(src, fs, o.fs, f, c, false, depth);
    var p := Paste(o.fs, c, id);
    KeepsTrans(src.nodes, fs.nodes, p.nodes, c);
    var rest := CloneFiles(src, p, fls[1..], c, now, depth);
    if rest.res.Err? {
      return Out(rest.fs, Err(rest.res.error));
    }
    r := Out(rest.fs, Ok([id] + rest.res.value));
    CopiesStep(src, fs, p, rest.fs, fls, c, false, id, rest.res.value, depth);
  }

  /** VirtualFile.clone(c) of a file: what it promises about the tree. */
  method CloneOne(fs: FS, f: NodeId, c: NodeId, now: int) returns (r: Out<NodeId>)
    requires IsFile(fs, f)
    ensures r.res.Ok? ==> && r.res.value == fs.unused && r.fs.holds == fs.holds && r.fs.unused == fs.unused + 1
                          && SameOutline(Alloc(fs, CloneNode(fs, f, c, now)).0, r.fs)
  {
    r := CloneFile(fs, f, c, now);
  }

  /** A file clone is a copy of the file under the next id, with c as its
      parent, and keeps every node there was. */
  lemma ClonedFile(src: FS, fs: FS, o: FS, f: NodeId, c: NodeId, now: int, depth: nat)
    requires Arena(fs) && IsFile(src, f) && f in fs.nodes && Outline(fs.nodes[f]) == Outline(src.nodes[f])
    requires o.unused == fs.unused + 1 && SameOutline(Alloc(fs, CloneNode(fs, f, c, now)).0, o)
    ensures Arena(o) && Keeps(fs.nodes, o.nodes) && fs.unused in o.nodes
    ensures ChildOf(o.nodes, c, fs.unused) && o.nodes[fs.unused].kind.FileKind?
    ensures CopyOf(src.nodes, o.nodes, f, fs.unused, fs.unused, depth)
  {
    var a := Alloc(fs, CloneNode(fs, f, c, now)).0;
    assert Outline(o.nodes[fs.unused]) == Outline(a.nodes[fs.unused]);
    forall k | k in fs.nodes ensures k in o.nodes && Outline(o.nodes[k]) == Outline(fs.nodes[k]) {
      assert Outline(o.nodes[k]) == Outline(a.nodes[k]);
    }
  }

  /** A directory's subdirectory list (`dirs`) or file list. */
  function Entries(fs: FS, c: NodeId, dirs: bool): seq<NodeId>
    requires IsDir(fs, c)
  {
    if dirs then Dirs(fs, c) else Files(fs, c)
  }

  /** The first entry's copy and the rest's make up the copies of the list. */
  lemma CopiesStep(src: FS, fs: FS, p: FS, q: FS, xs: seq<NodeId>, c: NodeId, dirs: bool, id: NodeId, ids: seq<NodeId>, depth: nat)
    requires |xs| > 0 && IsDir(fs, c) && c < fs.unused
    requires IsDir(p, c) && Entries(p, c, dirs) == Entries(fs, c, dirs) + [id] && Entries(p, c, !dirs) == Entries(fs, c, !dirs)
    requires SameHead(fs.nodes[c], p.nodes[c]) && fs.unused <= id < p.unused
    requires forall k | k in fs.nodes && k != c :: k in p.nodes && Outline(p.nodes[k]) == Outline(fs.nodes[k])
    requires ChildOf(p.nodes, c, id) && CopyOf(src.nodes, p.nodes, xs[0], id, fs.unused, depth)
    requires |ids| == |xs| - 1 && p.unused <= q.unused
    requires IsDir(q, c) && Entries(q, c, dirs) == Entries(p, c, dirs) + ids && Entries(q, c, !dirs) == Entries(p, c, !dirs)
    requires SameHead(p.nodes[c], q.nodes[c])
    requires forall k | k in p.nodes && k != c :: k in q.nodes && Outline(q.nodes[k]) == Outline(p.nodes[k])
    requires forall i | 0 <= i < |xs| - 1 ::
               ChildOf(q.nodes, c, ids[i]) && CopyOf(src.nodes, q.nodes, xs[1..][i], ids[i], p.unused, depth)
    ensures fs.unused <= q.unused && IsDir(q, c)
    ensures Entries(q, c, dirs) == Entries(fs, c, dirs) + ([id] + ids) && Entries(q, c, !dirs) == Entries(fs, c, !dirs)
    ensures SameHead(fs.nodes[c], q.nodes[c])
    ensures forall k | k in fs.nodes && k != c :: k in q.nodes && Outline(q.nodes[k]) == Outline(fs.nodes[k])
    ensures forall i | 0 <= i < |xs| ::
              ChildOf(q.nodes, c, ([id] + ids)[i]) && CopyOf(src.nodes, q.nodes, xs[i], ([id] + ids)[i], fs.unused, depth)
  {
    var all := [id] + ids;
    CopyKept(src.nodes, p.nodes, q.nodes, xs[0], id, fs.unused, fs.unused, depth);
    forall i | 0 <= i < |xs| ensures ChildOf(q.nodes, c, all[i]) && CopyOf(src.nodes, q.nodes, xs[i], all[i], fs.unused, depth) {
      if i == 0 {
        assert Outline(q.nodes[id]) == Outline(p.nodes[id]);
      } else {
        assert xs[1..][i - 1] == xs[i] && all[i] == ids[i - 1];
        CopyKept(src.nodes, q.nodes, q.nodes, xs[i], all[i], p.unused, fs.unused, depth);
      }
    }
  }

  /** A copy made under the next ids, with c as its parent, pasted into c's
      `dirs` or files list: only c changes among the nodes there were. */
  lemma PastedCopy(src: FS, fs: FS, o: FS, a: NodeId, c: NodeId, dirs: bool, depth: nat)
    requires IsDir(fs, c) && c < fs.unused
    requires Keeps(fs.nodes, o.nodes) && fs.unused in o.nodes && fs.unused < o.unused
    requires ChildOf(o.nodes, c, fs.unused) && CopyOf(src.nodes, o.nodes, a, fs.unused, fs.unused, depth)
    requires o.nodes[fs.unused].kind.DirKind? == dirs
    ensures var p := Paste(o, c, fs.unused);
      && IsDir(p, c) && Entries(p, c, dirs) == Entries(fs, c, dirs) + [fs.unused] && Entries(p, c, !dirs) == Entries(fs, c, !dirs)
      && SameHead(fs.nodes[c], p.nodes[c]) && p.unused == o.unused && p.holds == o.holds
      && (forall k | k in fs.nodes && k != c :: k in p.nodes && Outline(p.nodes[k]) == Outline(fs.nodes[k]))
      && ChildOf(p.nodes, c, fs.unused) && CopyOf(src.nodes, p.nodes, a, fs.unused, fs.unused, depth)
  {
    var p := Paste(o, c, fs.unused);
    assert Outline(o.nodes[c]) == Outline(fs.nodes[c]);
    forall k | k in fs.nodes && k != c ensures k in p.nodes && Outline(p.nodes[k]) == Outline(fs.nodes[k]) {
      assert Outline(o.nodes[k]) == Outline(fs.nodes[k]);
    }
    CopyKept(src.nodes, o.nodes, p.nodes, a, fs.unused, fs.unused, fs.unused, depth);
  }

  // ---------------------------------------------------------------------------
  // copy

  /** The holds copy() takes after its read lock-down of the directory:
      the directory list of the parent for reading and the destination's
      for writing. (The unchecked name read lock taken between them is
      always granted.) */
  function CopyExtra(p: NodeId, dest: NodeId): seq<Hold> {
    [Hold(DirsLock(p), Shared), Hold(DirsLock(dest), Exclusive)]
  }

  /** A write hold is refused on a directory list that already has a read
      hold, the one the first hold takes included. */
  lemma WriteAfterRead(fs: FS, p: NodeId, dest: NodeId)
    requires Count(fs, DirsLock(dest), Shared) > 0 || p == dest
    ensures !Grantable(fs, CopyExtra(p, dest))
  {
    var hs := CopyExtra(p, dest);
    assert hs[1..] == [hs[1]];
    if CanTake(fs, hs[0]) {
      assert Count(Take(fs, hs[0]), DirsLock(dest), Shared) > 0;
    }
  }

  /** The read lock-down copy() and importContent() start with: all the
      subtree's read holds, or none of them. */
  method ReadLockDown(fs: FS, d: NodeId, fuel: nat) returns (r: Out<seq<Hold>>)
    ensures r.fs == fs.(holds := r.fs.holds)
    ensures r.res.Ok? <==> DownLocks(fs, d, Shared, fuel).Some? && Grantable(fs, DownLocks(fs, d, Shared, fuel).value)
    ensures r.res.Ok? ==> && r.res.value == DownLocks(fs, d, Shared, fuel).value
                          && r.fs.holds == fs.holds + multiset(r.res.value)
    ensures DownLocks(fs, d, Shared, fuel).Some? && r.res.Err? ==> r == Out(fs, Err(Locked))
  {
    r := SubtreeLocks(fs, d, Shared, [], fuel);
    SubtreeLocksAcquire(fs, d, Shared, [], fuel);
    if DownLocks(fs, d, Shared, fuel).Some? {
      var dl := DownLocks(fs, d, Shared, fuel).value;
      assert dl + [] == dl && [] + dl == dl;
      assert fs.(holds := fs.holds - multiset([])) == fs;
    }
  }

  /** Taking the holds hs on top of those already `held`, all or none;
      a refusal gives back `held` too. */
  method TakeHolds(fs: FS, hs: seq<Hold>, held: seq<Hold>) returns (r: Out<seq<Hold>>)
    ensures r.res.Ok? <==> Grantable(fs, hs)
    ensures r.res.Ok? ==> r == Out(fs.(holds := fs.holds + multiset(hs)), Ok(held + hs))
    ensures r.res.Err? ==> r == Out(fs.(holds := fs.holds - multiset(held)), Err(Locked))
  {
    r := Acquire(fs, hs, held);
  }

  /** The part of copy()'s locking after the read lock-down, whose holds
      are `dl`: the destination's isModifying raised; the name read lock;
      then the parent's and the destination's directory-list locks, a
      refusal lowering the flag and giving every hold back, `dl`
      included. Without a parent the NullPointerException escapes with
      the holds and the flag left behind. */
  method NameAndListLocks(fs: FS, d: NodeId, dest: NodeId, dl: seq<Hold>) returns (a: Out<seq<Hold>>)
    ensures a.fs.nodes == fs.nodes && a.fs.unused == fs.unused && a.fs.disk == fs.disk
    ensures a.res.Ok? ==> && ParentOf(fs, d).Some?
                          && a.res.value == dl + [Hold(NameLock(d), Shared)] + CopyExtra(ParentOf(fs, d).value, dest)
                          && a.fs == SetModifying(fs, dest, true).(holds := fs.holds + multiset([Hold(NameLock(d), Shared)] + CopyExtra(ParentOf(fs, d).value, dest)))
    ensures ParentOf(fs, d).Some? && a.res.Err? ==> a.res == Err(Locked) && a.fs.holds == fs.holds - multiset(dl)
    ensures ParentOf(fs, d).Some? && (ParentOf(fs, d).value == dest || Count(fs, DirsLock(dest), Shared) > 0) ==> a.res.Err?
  {
    var up := SetModifying(fs, dest, true);
    var name := Hold(NameLock(d), Shared);
    var n := TryNameRead(up, d).value;
    var held := dl + [name];
    var p := ParentOf(fs, d);
    if p.None? {
      return Out(n, Err(NullPointer));
    }
    if p.value == dest || Count(fs, DirsLock(dest), Shared) > 0 {
      assert Count(n, DirsLock(dest), Shared) > 0 || p.value == dest;
      WriteAfterRead(n, p.value, dest);
    }
    var b := TakeHolds(n, CopyExtra(p.value, dest), held);
    if b.res.Err? {
      assert multiset(held) == multiset(dl) + multiset{name};
      return Out(SetModifying(b.fs, dest, false), Err(Locked));
    }
    assert multiset([name] + CopyExtra(p.value, dest)) == multiset{name} + multiset(CopyExtra(p.value, dest));
    a := b;
  }

  /** The holds of the lock-down and those taken after it add up. */
  lemma CopyHolds(fs: FS, o: FS, dl: seq<Hold>, rest: seq<Hold>, dest: NodeId)
    requires o == fs.(holds := fs.holds + multiset(dl))
    ensures SetModifying(o, dest, true).(holds := o.holds + multiset(rest))
            == SetModifying(fs, dest, true).(holds := fs.holds + multiset(dl + rest))
  {
    assert multiset(dl + rest) == multiset(dl) + multiset(rest);
    FlagHolds(fs, fs.holds + multiset(dl), dest, true);
  }

  /** The lock part of copy(): the read lock-down of the subtree (Locked,
      nothing held, when refused), then NameAndListLocks. Copying a
      directory into its own parent, or into its own subtree, is refused
      Locked with every hold given back: the write hold on the
      destination's directory list meets a read hold just taken. */
  method CopyLocks(fs: FS, d: NodeId, dest: NodeId, fuel: nat) returns (a: Out<seq<Hold>>)
    ensures a.fs.nodes == fs.nodes && a.fs.unused == fs.unused && a.fs.disk == fs.disk
    ensures a.res.Ok? ==> && ParentOf(fs, d).Some? && DownLocks(fs, d, Shared, fuel).Some?
                          && a.fs == SetModifying(fs, dest, true).(holds := fs.holds + multiset(a.res.value))
    ensures DownLocks(fs, d, Shared, fuel).Some? && !Grantable(fs, DownLocks(fs, d, Shared, fuel).value) ==>
              a == Out(fs, Err(Locked))
    ensures ParentOf(fs, d).Some? && DownLocks(fs, d, Shared, fuel).Some?
            && (ParentOf(fs, d).value == dest || Hold(DirsLock(dest), Shared) in DownLocks(fs, d, Shared, fuel).value) ==>
              a.res == Err(Locked) && a.fs.holds == fs.holds
  {
    var o := ReadLockDown(fs, d, fuel);
    if o.res.Err? {
      return Out(o.fs, Err(o.res.error));
    }
    var dl := o.res.value;
    if Hold(DirsLock(dest), Shared) in dl {
      assert Count(o.fs, DirsLock(dest), Shared) > 0;
    }
    a := NameAndListLocks(o.fs, d, dest, dl);
    if a.res.Ok? {
      CopyHolds(fs, o.fs, dl, [Hold(NameLock(d), Shared)] + CopyExtra(ParentOf(fs, d).value, dest), dest);
    }
  }

  /** A file of d held open for writing refuses d's read lock-down. */
  lemma OpenFileRefusesRead(fs: FS, d: NodeId, f: NodeId, fuel: nat)
    requires IsDir(fs, d) && DownLocks(fs, d, Shared, fuel).Some? && f in Files(fs, d)
    requires Count(fs, ContentLock(f), Exclusive) > 0
    ensures !Grantable(fs, DownLocks(fs, d, Shared, fuel).value)
  {
    OpenFileBlocks(fs, d, f, Shared, [], fuel);
    LockDownAcquire(fs, d, Shared, [], fuel);
  }

  /** The end of copy(), once the locks are `held`: the clone of the
      directory with the destination as parent, pasted into the
      destination's subdirectories without a name check; the holds go
      back and the destination's flag is lowered. A clone that fails (an
      empty name, the depth bound) leaves the holds and the flag behind,
      as the exception does. */
  method CloneAndPaste(fs: FS, held: seq<Hold>, d: NodeId, dest: NodeId, now: int, fuel: nat) returns (r: Out<NodeId>)
    requires IsDir(fs, d) && IsDir(fs, dest) && Arena(fs)
    ensures r.res.Ok? ==>
              && r.res.value == fs.unused && r.fs.holds == fs.holds - multiset(held)
              && IsDir(r.fs, dest) && !Modifying(r.fs, dest)
              && Dirs(r.fs, dest) == Dirs(fs, dest) + [fs.unused] && Files(r.fs, dest) == Files(fs, dest)
              && ChildOf(r.fs.nodes, dest, fs.unused) && CopyOf(fs.nodes, r.fs.nodes, d, fs.unused, fs.unused, fuel)
              && (forall k | k in fs.nodes && k != dest :: k in r.fs.nodes && Outline(r.fs.nodes[k]) == Outline(fs.nodes[k]))
  {
    var c := CloneDir(fs, fs, d, dest, now, fuel);
    if c.res.Err? {
      return Out(c.fs, Err(c.res.error));
    }
    PastedCopy(fs, fs, c.fs, d, dest, true, fuel);
    r := Out(Pasted(c.fs, dest, c.res.value, held), Ok(c.res.value));
  }

  /** copy(destination): CopyLocks, then CloneAndPaste. A copy refused
      by a lock, by a file open for writing, or because the destination
      is the parent or lies inside the subtree changes nothing the
      lock-down did not give back. */
  method CopyDir(fs: FS, d: NodeId, dest: NodeId, now: int, fuel: nat) returns (r: Out<NodeId>)
    requires IsDir(fs, d) && IsDir(fs, dest) && Arena(fs)
    ensures DownLocks(fs, d, Shared, fuel).Some? && !Grantable(fs, DownLocks(fs, d, Shared, fuel).value) ==>
              r == Out(fs, Err(Locked))
    ensures DownLocks(fs, d, Shared, fuel).Some? && (exists f | f in Files(fs, d) :: Count(fs, ContentLock(f), Exclusive) > 0) ==>
              r == Out(fs, Err(Locked))
    ensures forall depth: nat ::
              (ParentOf(fs, d).Some? && DownLocks(fs, d, Shared, fuel).Some?
               && (ParentOf(fs, d).value == dest || Below(fs, d, dest, depth))) ==>
              r.res == Err(Locked) && r.fs.holds == fs.holds && r.fs.nodes == fs.nodes
    ensures r.res.Ok? ==>
              && ParentOf(fs, d).Some? && r.res.value == fs.unused && r.fs.holds == fs.holds
              && IsDir(r.fs, dest) && !Modifying(r.fs, dest)
              && Dirs(r.fs, dest) == Dirs(fs, dest) + [fs.unused] && Files(r.fs, dest) == Files(fs, dest)
              && ChildOf(r.fs.nodes, dest, fs.unused) && CopyOf(fs.nodes, r.fs.nodes, d, fs.unused, fs.unused, fuel)
              && (forall k | k in fs.nodes && k != dest :: k in r.fs.nodes && Outline(r.fs.nodes[k]) == Outline(fs.nodes[k]))
  {
    forall depth: nat | ParentOf(fs, d).Some? && DownLocks(fs, d, Shared, fuel).Some? && Below(fs, d, dest, depth)
      ensures Hold(DirsLock(dest), Shared) in DownLocks(fs, d, Shared, fuel).value
    {
      DirsLockListed(fs, d, dest, Shared, depth, fuel);
    }
    if DownLocks(fs, d, Shared, fuel).Some? && (exists f | f in Files(fs, d) :: Count(fs, ContentLock(f), Exclusive) > 0) {
      var f :| f in Files(fs, d) && Count(fs, ContentLock(f), Exclusive) > 0;
      OpenFileRefusesRead(fs, d, f, fuel);
    }
    var a := CopyLocks(fs, d, dest, fuel);
    if a.res.Err? {
      return Out(a.fs, Err(a.res.error));
    }
    r := CloneAndPaste(a.fs, a.res.value, d, dest, now, fuel);
  }
}
