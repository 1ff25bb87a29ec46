/** VirtualDirectory: the uniqueness scans, mkdir, touch, rename, the
    recursive remove and move (clone, copy and importContent are in Copying).
    Every operation works on the one arena of Tree; the lists a directory
    holds are read from the state the operation starts in. */
module Directories {
  import opened Wrappers
  import opened Bytes
  import opened Blocks
  import opened Tree
  import opened Locking = LockDown
  import opened FileOps = Files

  // ---------------------------------------------------------------------------
  // checkForUniqueDirectoryName / checkForUniqueFileName

  /** checkForUniqueDirectoryName(name) and checkForUniqueFileName(name):
      walk the list and report a clash at the first entry called name. */
  method CheckUnique(fs: FS, s: seq<NodeId>, name: string) returns (unique: bool)
    ensures unique <==> NameFree(fs, s, name)
  {
    var i := 0;
    while i < |s|
      invariant 0 <= i <= |s|
      invariant forall j :: 0 <= j < i ==> NameOf(fs, s[j]) != name
    {
      if NameOf(fs, s[i]) == name {
        return false;
      }
      i := i + 1;
    }
    return true;
  }

  /** The overloads that take the node itself: an entry that is that very
      node is no clash. */
  method CheckUniqueBut(fs: FS, s: seq<NodeId>, self: NodeId, name: string) returns (unique: bool)
    ensures unique <==> NameFreeBut(fs, s, self, name)
  {
    var i := 0;
    while i < |s|
      invariant 0 <= i <= |s|
      invariant forall j :: 0 <= j < i && s[j] != self ==> NameOf(fs, s[j]) != name
    {
      if s[i] != self && NameOf(fs, s[i]) == name {
        return false;
      }
      i := i + 1;
    }
    return true;
  }

  /** Leaving out a node the list does not hold changes nothing; in a list
      of distinct names the node's own name is free but for the node. */
  lemma NameFreeButSelf(fs: FS, s: seq<NodeId>, self: NodeId)
    ensures self !in s ==> forall name :: NameFreeBut(fs, s, self, name) == NameFree(fs, s, name)
    ensures Unique(fs, s) && self in s ==> NameFreeBut(fs, s, self, NameOf(fs, self))
  {
    if Unique(fs, s) && self in s {
      var k :| 0 <= k < |s| && s[k] == self;
      forall i | 0 <= i < |s| && s[i] != self ensures NameOf(fs, s[i]) != NameOf(fs, self) {
        if i < k {
          assert NameOf(fs, s[i]) != NameOf(fs, s[k]);
        } else {
          assert NameOf(fs, s[k]) != NameOf(fs, s[i]);
        }
      }
    }
  }

  // ---------------------------------------------------------------------------
  // mkdir and touch

  /** The part mkdir and touch share once the list's write lock `h` is
      taken and isModifying raised: a clash (`free` false) raises
      NotUnique; otherwise the new node `made` (which refuses the empty
      name) gets the next id and is pasted into the directory. In every case
      the flag is lowered and the hold given back. */
  function Create(fs: FS, d: NodeId, h: Hold, free: bool, made: Result<Node>): (r: Out<NodeId>)
    requires IsDir(fs, d) && Arena(fs)
    requires made.Ok? ==> made.value.parent == Some(d)
    ensures !free ==> r == Out(SetModifying(fs, d, false), Err(NotUnique))
    ensures free && made.Err? ==> r == Out(SetModifying(fs, d, false), Err(made.error))
    ensures r.res.Ok? <==> free && made.Ok?
    ensures r.res.Ok? ==>
              && r.res.value == fs.unused && r.fs.unused == fs.unused + 1
              && r.fs.holds == fs.holds && r.fs.disk == fs.disk && !Modifying(r.fs, d)
              && r.fs.nodes == Paste(Alloc(fs, made.value).0, d, fs.unused).nodes
  {
    var fs1 := SetModifying(Tree.Take(fs, h), d, true);
    TakeRelease(fs, h);
    if !free then Out(SetModifying(Release(fs1, [h]), d, false), Err(NotUnique))
    else match made
      case Err(e) => Out(SetModifying(Release(fs1, [h]), d, false), Err(e))
      case Ok(n) =>
        var (fs2, c) := Alloc(fs1, n);
        Out(SetModifying(Release(Paste(fs2, d, c), [h]), d, false), Ok(c))
  }

  /** The state after a successful mkdir or touch: the new node `c` is
      last in the list of its kind, named and parented as asked, and no
      other node has changed. */
  predicate Created(fs: FS, fs': FS, d: NodeId, c: NodeId, n: Node)
    requires IsDir(fs, d)
  {
    && c !in fs.nodes && fs'.nodes.Keys == fs.nodes.Keys + {c}
    && c in fs'.nodes && fs'.nodes[c] == n && IsDir(fs', d)
    && (n.kind.DirKind? ==> Dirs(fs', d) == Dirs(fs, d) + [c] && Files(fs', d) == Files(fs, d))
    && (n.kind.FileKind? ==> Files(fs', d) == Files(fs, d) + [c] && Dirs(fs', d) == Dirs(fs, d))
    && fs'.nodes[d] == fs.nodes[d].(kind := fs'.nodes[d].kind)
    && forall k | k in fs.nodes && k != d :: fs'.nodes[k] == fs.nodes[k]
  }

  /** The new node pasted under the next id is what Created describes. */
  lemma PasteCreated(fs: FS, fs': FS, d: NodeId, n: Node)
    requires IsDir(fs, d) && Arena(fs) && n.parent == Some(d)
    requires fs'.nodes == Paste(Alloc(fs, n).0, d, fs.unused).nodes
    ensures Created(fs, fs', d, fs.unused, n)
  {
  }

  /** mkdir(name): the directory-list write lock (Locked, nothing changed,
      when refused); isModifying raised; the name checked against the
      subdirectories other than this one; then a new empty directory
      appended. Any outcome past the lock lowers the flag and gives the
      hold back. */
  function MakeDir(fs: FS, d: NodeId, name: string): (r: Out<NodeId>)
    requires IsDir(fs, d) && Arena(fs)
    ensures !CanTake(fs, Hold(DirsLock(d), Exclusive)) ==> r == Out(fs, Err(Locked))
    ensures r.res.Ok? <==>
              CanTake(fs, Hold(DirsLock(d), Exclusive)) && NameFreeBut(fs, Dirs(fs, d), d, name) && name != ""
    ensures CanTake(fs, Hold(DirsLock(d), Exclusive)) && !NameFreeBut(fs, Dirs(fs, d), d, name) ==>
              r == Out(SetModifying(fs, d, false), Err(NotUnique))
    ensures CanTake(fs, Hold(DirsLock(d), Exclusive)) && NameFreeBut(fs, Dirs(fs, d), d, name) && name == "" ==>
              r == Out(SetModifying(fs, d, false), Err(EmptyName))
    ensures r.res.Ok? ==>
              && r.res.value == fs.unused && r.fs.holds == fs.holds && !Modifying(r.fs, d)
              && Created(fs, r.fs, d, fs.unused, Node(name, Some(d), false, false, DirKind([], [])))
  {
    var h := Hold(DirsLock(d), Exclusive);
    match TryLock(fs, DirsLock(d), Exclusive)
    case Err(e) => Out(fs, Err(e))
    case Ok(_) =>
      var made := NewNode(name, Some(d), false, DirKind([], []));
      var r := Create(fs, d, h, NameFreeBut(fs, Dirs(fs, d), d, name), made);
      if r.res.Ok? then
        PasteCreated(fs, r.fs, d, made.value);
        r
      else r
  }

  /** touch(name): as mkdir, on the file list, with the name checked
      against every file; the new file has no content yet and both its
      dates are the clock reading `now`. */
  function Touch(fs: FS, d: NodeId, name: string, now: int): (r: Out<NodeId>)
    requires IsDir(fs, d) && Arena(fs)
    ensures !CanTake(fs, Hold(FilesLock(d), Exclusive)) ==> r == Out(fs, Err(Locked))
    ensures r.res.Ok? <==>
              CanTake(fs, Hold(FilesLock(d), Exclusive)) && NameFree(fs, Files(fs, d), name) && name != ""
    ensures CanTake(fs, Hold(FilesLock(d), Exclusive)) && !NameFree(fs, Files(fs, d), name) ==>
              r == Out(SetModifying(fs, d, false), Err(NotUnique))
    ensures CanTake(fs, Hold(FilesLock(d), Exclusive)) && NameFree(fs, Files(fs, d), name) && name == "" ==>
              r == Out(SetModifying(fs, d, false), Err(EmptyName))
    ensures r.res.Ok? ==>
              && r.res.value == fs.unused && r.fs.holds == fs.holds && !Modifying(r.fs, d)
              && Created(fs, r.fs, d, fs.unused, Node(name, Some(d), false, false, FileKind(NONE, now, now)))
  {
    var h := Hold(FilesLock(d), Exclusive);
    match TryLock(fs, FilesLock(d), Exclusive)
    case Err(e) => Out(fs, Err(e))
    case Ok(_) =>
      var made := NewNode(name, Some(d), false, FileKind(NONE, now, now));
      var r := Create(fs, d, h, NameFree(fs, Files(fs, d), name), made);
      if r.res.Ok? then
        PasteCreated(fs, r.fs, d, made.value);
        r
      else r
  }

  /** mkdir keeps the subdirectory names of a directory unique (a
      directory does not list itself), and a second mkdir of the same name
      is refused with NotUnique. */
  lemma MakeDirUnique(fs: FS, d: NodeId, name: string)
    requires IsDir(fs, d) && Arena(fs) && d !in Dirs(fs, d)
    requires forall i :: 0 <= i < |Dirs(fs, d)| ==> Dirs(fs, d)[i] in fs.nodes
    requires Unique(fs, Dirs(fs, d))
    requires MakeDir(fs, d, name).res.Ok?
    ensures var r := MakeDir(fs, d, name);
      && Unique(r.fs, Dirs(r.fs, d)) && Arena(r.fs)
      && MakeDir(r.fs, d, name) == Out(SetModifying(r.fs, d, false), Err(NotUnique))
  {
    var r := MakeDir(fs, d, name);
    var c := fs.unused;
    var s := Dirs(fs, d);
    NameFreeButSelf(fs, s, d);
    assert NameOf(fs, c) == "";
    forall k ensures NameOf(r.fs, k) == if k == c then name else NameOf(fs, k) {
    }
    assert NameFree(fs, s, name);
    UniqueExtended(fs, r.fs, s, c);
    assert Dirs(r.fs, d)[|s|] == c;
  }

  /** Appending an entry whose name (read in the new state) no entry had
      keeps the names distinct, when the old entries keep their names. */
  lemma UniqueExtended(fs: FS, fs': FS, s: seq<NodeId>, x: NodeId)
    requires Unique(fs, s) && NameFree(fs, s, NameOf(fs', x))
    requires forall i :: 0 <= i < |s| ==> NameOf(fs', s[i]) == NameOf(fs, s[i])
    ensures Unique(fs', s + [x])
  {
    var t := s + [x];
    forall i, j | 0 <= i < j < |t| ensures NameOf(fs', t[i]) != NameOf(fs', t[j]) {
      if j == |s| {
        assert NameOf(fs, s[i]) != NameOf(fs', x);
      } else {
        assert NameOf(fs, s[i]) != NameOf(fs, s[j]);
      }
    }
  }
  /** touch keeps the file names of a directory unique, and a second touch
      of the same name is refused with NotUnique. */
  lemma TouchUnique(fs: FS, d: NodeId, name: string, now: int)
    requires IsDir(fs, d) && Arena(fs)
    requires forall i :: 0 <= i < |Files(fs, d)| ==> Files(fs, d)[i] in fs.nodes
    requires Unique(fs, Files(fs, d))
    requires Touch(fs, d, name, now).res.Ok?
    ensures var r := Touch(fs, d, name, now);
      && Unique(r.fs, Files(r.fs, d)) && Arena(r.fs)
      && Touch(r.fs, d, name, now) == Out(SetModifying(r.fs, d, false), Err(NotUnique))
  {
    var r := Touch(fs, d, name, now);
    var c := fs.unused;
    var s := Files(fs, d);
    UniqueExtended(fs, r.fs, s, c);
    assert Files(r.fs, d)[|s|] == c;
  }

  // ---------------------------------------------------------------------------
  // rename

  /** rename gets its locks: the name write lock (tryLockNameWrite, which
      a thread that already writes the name gets again), then the parent's
      directory-list write lock when there is a parent. */
  predicate RenameDirGranted(fs: FS, d: NodeId) {
    && (Count(fs, NameLock(d), Exclusive) > 0 || Count(fs, NameLock(d), Shared) == 0)
    && (ParentOf(fs, d).Some? ==>
          CanTake(Tree.Take(fs, Hold(NameLock(d), Exclusive)), Hold(DirsLock(ParentOf(fs, d).value), Exclusive)))
  }

  /** No sibling directory other than d itself is called name. */
  predicate SiblingFree(fs: FS, d: NodeId, name: string)
    requires ParentDir(fs, d)
  {
    ParentOf(fs, d).Some? ==> NameFreeBut(fs, Dirs(fs, ParentOf(fs, d).value), d, name)
  }

  /** rename(name) of a directory: its name write lock, then its parent's
      directory-list write lock (a refusal gives the first back); its own
      isModifying raised; the name checked against the sibling
      directories; then the base rename, which refuses the empty name.
      Every outcome past the locks gives the holds back and lowers the flag
      (the finally block); a deleted directory is not refused. */
  function RenameDir(fs: FS, d: NodeId, name: string): (r: Out<()>)
    requires IsDir(fs, d) && ParentDir(fs, d)
    ensures !RenameDirGranted(fs, d) ==> r == Out(fs, Err(Locked))
    ensures r.res.Ok? <==> RenameDirGranted(fs, d) && SiblingFree(fs, d, name) && name != ""
    ensures RenameDirGranted(fs, d) && !SiblingFree(fs, d, name) ==>
              r == Out(SetModifying(fs, d, false), Err(NotUnique))
    ensures RenameDirGranted(fs, d) && SiblingFree(fs, d, name) && name == "" ==>
              r == Out(SetModifying(fs, d, false), Err(EmptyName))
    ensures r.res.Ok? ==> r.fs == SetModifying(Update(fs, d, fs.nodes[d].(name := name)), d, false)
  {
    var nh := Hold(NameLock(d), Exclusive);
    var p := ParentOf(fs, d);
    match TryNameWrite(fs, d)
    case Err(e) => Out(fs, Err(e))
    case Ok(fs1) =>
      TakeRelease(fs, nh);
      if p.Some? && !CanTake(fs1, Hold(DirsLock(p.value), Exclusive)) then Out(Release(fs1, [nh]), Err(Locked))
      else
        var held := if p.Some? then [nh, Hold(DirsLock(p.value), Exclusive)] else [nh];
        RenameHeld(fs, d, name, held)
  }

  /** rename once its holds `held` are taken: isModifying raised, the
      sibling check, the base rename; the holds given back and the flag
      lowered whatever the outcome. */
  function RenameHeld(fs: FS, d: NodeId, name: string, held: seq<Hold>): (r: Out<()>)
    requires IsDir(fs, d) && ParentDir(fs, d)
    ensures r.res.Ok? <==> SiblingFree(fs, d, name) && name != ""
    ensures !SiblingFree(fs, d, name) ==> r == Out(SetModifying(fs, d, false), Err(NotUnique))
    ensures SiblingFree(fs, d, name) && name == "" ==> r == Out(SetModifying(fs, d, false), Err(EmptyName))
    ensures r.res.Ok? ==> r.fs == SetModifying(Update(fs, d, fs.nodes[d].(name := name)), d, false)
  {
    var up := SetModifying(fs, d, true);
    ReleaseTaken(up, held);
    FlagTwice(fs, d, true, false);
    if !SiblingFree(fs, d, name) then
      Out(SetModifying(Release(up.(holds := up.holds + multiset(held)), held), d, false), Err(NotUnique))
    else match RenameNode(fs.nodes[d], name)
      case Err(e) => Out(SetModifying(Release(up.(holds := up.holds + multiset(held)), held), d, false), Err(e))
      case Ok(n) =>
        var named := Update(up, d, n);
        ReleaseTaken(named, held);
        Out(SetModifying(Release(named.(holds := named.holds + multiset(held)), held), d, false), Ok(()))
  }

  /** Renaming keeps the sibling directory names unique. */
  lemma RenameDirUnique(fs: FS, d: NodeId, name: string)
    requires IsDir(fs, d) && ParentDir(fs, d) && ParentOf(fs, d).Some?
    requires Unique(fs, Dirs(fs, ParentOf(fs, d).value))
    requires RenameDir(fs, d, name).res.Ok?
    ensures var r := RenameDir(fs, d, name);
      IsDir(r.fs, ParentOf(fs, d).value) && Unique(r.fs, Dirs(r.fs, ParentOf(fs, d).value))
  {
    var r := RenameDir(fs, d, name);
    var p := ParentOf(fs, d).value;
    forall k ensures NameOf(r.fs, k) == if k == d then name else NameOf(fs, k) {
    }
    UniqueRenamed(fs, r.fs, Dirs(fs, p), d, name);
  }

  /** Renaming a directory listed by its parent to the name it already
      has succeeds whenever the locks are granted: it is no clash with
      itself. */
  lemma RenameDirOwnName(fs: FS, d: NodeId)
    requires IsDir(fs, d) && ParentDir(fs, d) && RenameDirGranted(fs, d) && NameOf(fs, d) != ""
    requires ParentOf(fs, d).Some? ==>
               d in Dirs(fs, ParentOf(fs, d).value) && Unique(fs, Dirs(fs, ParentOf(fs, d).value))
    ensures RenameDir(fs, d, NameOf(fs, d)).res.Ok?
  {
    if ParentOf(fs, d).Some? {
      NameFreeButSelf(fs, Dirs(fs, ParentOf(fs, d).value), d);
    }
  }

  // ---------------------------------------------------------------------------
  // remove

  /** A node as a removal leaves it, cached container reference and head
      block aside: deleted, and, for a directory, with both lists emptied. */
  function Gone(n: Node): (r: Node)
    ensures r.deleted && r.name == n.name && r.parent == n.parent && r.kind.DirKind? == n.kind.DirKind?
    ensures r.kind.DirKind? ==> r.kind == DirKind([], [])
  {
    var o := Outline(n);
    o.(deleted := true, kind := if o.kind.DirKind? then DirKind([], []) else o.kind)
  }

  /** k, live in m, is deleted in m'. */
  predicate NewlyGone(m: Nodes, m': Nodes, k: NodeId) {
    k in m && k in m' && !m[k].deleted && m'[k].deleted
  }

  /** Every entry the node n lists, if it is a directory, is newly gone. */
  predicate ChildrenGone(m: Nodes, m': Nodes, n: Node) {
    n.kind.DirKind? ==>
      && (forall c | c in n.kind.dirs :: NewlyGone(m, m', c))
      && (forall c | c in n.kind.files :: NewlyGone(m, m', c))
  }

  /** What removals did to the node k: at most its cached reference and
      content changed, or it was live and is now gone, together with
      everything it listed. */
  predicate SweptAt(m: Nodes, m': Nodes, k: NodeId)
    requires k in m && k in m'
  {
    || Outline(m'[k]) == Outline(m[k])
    || (!m[k].deleted && Outline(m'[k]) == Gone(m[k]) && ChildrenGone(m, m', m[k]))
  }

  /** m' is m after removals: the same ids, each node untouched or removed
      with its whole listing. */
  predicate Swept(m: Nodes, m': Nodes) {
    m'.Keys == m.Keys && forall k | k in m :: SweptAt(m, m', k)
  }

  /** Every node of d's subtree as m lists it, down to `depth` levels, is
      deleted in m'. */
  predicate SubtreeGone(m: Nodes, m': Nodes, d: NodeId, depth: nat)
    decreases depth
  {
    && d in m' && m'[d].deleted
    && (d in m && m[d].kind.DirKind? && depth > 0 ==>
          && (forall c | c in m[d].kind.dirs :: SubtreeGone(m, m', c, depth - 1))
          && (forall c | c in m[d].kind.files :: c in m' && m'[c].deleted))
  }

  /** Nothing removed yet. */
  lemma SweptRefl(m: Nodes)
    ensures Swept(m, m)
  {
  }

  /** A deleted node stays deleted. */
  lemma SweptKeepsDeleted(m: Nodes, m': Nodes, k: NodeId)
    requires Swept(m, m') && k in m && m[k].deleted
    ensures m'[k].deleted
  {
    assert SweptAt(m, m', k);
  }

  /** Removals in a row compose, and what either removed stays removed. */
  lemma SweptTrans(a: Nodes, b: Nodes, c: Nodes)
    requires Swept(a, b) && Swept(b, c)
    ensures Swept(a, c)
    ensures forall k | NewlyGone(a, b, k) :: NewlyGone(a, c, k)
    ensures forall k | NewlyGone(b, c, k) :: NewlyGone(a, c, k)
  {
    forall k | NewlyGone(a, b, k) ensures NewlyGone(a, c, k) {
      SweptKeepsDeleted(b, c, k);
    }
    forall k | NewlyGone(b, c, k) ensures NewlyGone(a, c, k) {
      if a[k].deleted { SweptKeepsDeleted(a, b, k); }
    }
    forall k | k in a ensures SweptAt(a, c, k) {
      assert SweptAt(a, b, k) && SweptAt(b, c, k);
      if Outline(b[k]) == Outline(a[k]) {
        assert Gone(b[k]) == Gone(a[k]);
        if Outline(c[k]) != Outline(a[k]) {
          assert a[k].kind.DirKind? ==> a[k].kind == b[k].kind;
          assert ChildrenGone(a, c, a[k]);
        }
      } else {
        assert Outline(b[k]) == Gone(a[k]);
        assert Outline(c[k]) == Outline(b[k]);
        assert ChildrenGone(a, c, a[k]);
      }
    }
  }

  /** A live directory whose every entry is gone, emptied and marked
      deleted, completes its removal. */
  lemma SweptClose(m: Nodes, m': Nodes, d: NodeId)
    requires Swept(m, m') && d in m && m[d].kind.DirKind? && !m[d].deleted
    requires Outline(m'[d]) == Outline(m[d]) && ChildrenGone(m, m', m[d])
    ensures var m2 := m'[d := m'[d].(deleted := true, kind := DirKind([], []))];
      Swept(m, m2) && NewlyGone(m, m2, d)
  {
    var m2 := m'[d := m'[d].(deleted := true, kind := DirKind([], []))];
    forall k | k in m ensures SweptAt(m, m2, k) {
      assert SweptAt(m, m', k);
      if k != d && Outline(m2[k]) != Outline(m[k]) {
        assert ChildrenGone(m, m2, m[k]);
      }
    }
  }

  /** One file marked deleted (its content erased) is a removal. */
  lemma SweptFile(m: Nodes, m': Nodes, f: NodeId)
    requires f in m && m[f].kind.FileKind? && !m[f].deleted
    requires m'.Keys == m.Keys && Outline(m'[f]) == Outline(m[f].(deleted := true))
    requires forall k | k in m && k != f :: Outline(m'[k]) == Outline(m[k])
    ensures Swept(m, m') && NewlyGone(m, m', f)
  {
    assert SweptAt(m, m', f);
  }

  /** The removal of a directory reaches every node of its subtree, at any depth. */
  lemma {:induction false} SweptSubtree(m: Nodes, m': Nodes, d: NodeId, depth: nat)
    requires Swept(m, m') && NewlyGone(m, m', d)
    ensures SubtreeGone(m, m', d, depth)
    decreases depth
  {
    assert SweptAt(m, m', d);
    if m[d].kind.DirKind? && depth > 0 {
      forall c | c in m[d].kind.dirs ensures SubtreeGone(m, m', c, depth - 1) {
        SweptSubtree(m, m', c, depth - 1);
      }
    }
  }

  /** A state that deletes at least as much deletes the subtree too. */
  lemma {:induction false} SubtreeKept(m: Nodes, x: Nodes, y: Nodes, d: NodeId, depth: nat)
    requires SubtreeGone(m, x, d, depth) && x.Keys <= y.Keys
    requires forall k | k in x && x[k].deleted :: y[k].deleted
    ensures SubtreeGone(m, y, d, depth)
    decreases depth
  {
    if d in m && m[d].kind.DirKind? && depth > 0 {
      forall c | c in m[d].kind.dirs ensures SubtreeGone(m, y, c, depth - 1) {
        SubtreeKept(m, x, y, c, depth - 1);
      }
    }
  }

  lemma DeletedOutline(a: FS, b: FS, f: NodeId)
    requires SameOutline(a, b) && f in a.nodes
    ensures SameOutline(SetDeleted(a, f), SetDeleted(b, f))
  {
  }

  /** The erase step of a file's remove(true, false) changes only that
      file, by marking it deleted (and erasing its content). */
  lemma EraseLocked(fs: FS, f: NodeId, p: NodeId)
    requires IsFile(fs, f)
    ensures var r := Erase(fs, f, p, [], false);
      r.res.Ok? ==> r.fs.holds == fs.holds && r.fs.unused == fs.unused && SameOutline(SetDeleted(fs, f), r.fs)
  {
    var fs1 := SetModifying(fs, p, true);
    var w := Wipe(fs1, f);
    if w.res.Ok? {
      var head := Content(w.fs, f);
      ShapeOutline(SetContent(fs1, f, head), w.fs);
      ContentOutline(fs1, f, head);
      OutlineTrans(fs1, SetContent(fs1, f, head), w.fs);
      DeletedOutline(fs, w.fs, f);
    }
  }

  /** Marking one live file deleted is a removal of that file alone. */
  lemma DeletedSwept(fs: FS, x: FS, f: NodeId)
    requires IsFile(fs, f) && !fs.nodes[f].deleted && SameOutline(SetDeleted(fs, f), x)
    ensures Swept(fs.nodes, x.nodes) && NewlyGone(fs.nodes, x.nodes, f)
    ensures forall k | k in fs.nodes && k != f :: Outline(x.nodes[k]) == Outline(fs.nodes[k])
  {
    assert Outline(x.nodes[f]) == Outline(SetDeleted(fs, f).nodes[f]);
    SweptFile(fs.nodes, x.nodes, f);
  }

  /** With its checks passed, remove(true, false) of a file is the erase step. */
  lemma RemoveFileErases(fs: FS, f: NodeId)
    requires IsFile(fs, f) && RemoveCheck(fs.nodes[f]).Ok?
    ensures RemoveFile(fs, f, true, false) == Erase(fs, f, fs.nodes[f].parent.value, [], false)
  {
  }

  /** remove(true, false) of a file, as the cascade calls it, is a removal
      of that file alone. */
  lemma RemoveFileLocked(fs: FS, f: NodeId)
    requires IsFile(fs, f)
    ensures var r := RemoveFile(fs, f, true, false);
      r.res.Ok? ==> && r.fs.holds == fs.holds && r.fs.unused == fs.unused
                    && Swept(fs.nodes, r.fs.nodes) && NewlyGone(fs.nodes, r.fs.nodes, f)
                    && forall k | k in fs.nodes && k != f :: Outline(r.fs.nodes[k]) == Outline(fs.nodes[k])
  {
    if RemoveCheck(fs.nodes[f]).Ok? {
      RemoveFileErases(fs, f);
      EraseLocked(fs, f, fs.nodes[f].parent.value);
      var r := RemoveFile(fs, f, true, false);
      if r.res.Ok? {
        DeletedSwept(fs, r.fs, f);
      }
    }
  }

  /** A directory's lists emptied and its deleted flag set. */
  function Emptied(fs: FS, d: NodeId): (r: FS)
    requires IsDir(fs, d)
    ensures r.holds == fs.holds && r.unused == fs.unused && r.flags == fs.flags
    ensures IsDir(r, d) && r.nodes[d].deleted && Dirs(r, d) == [] && Files(r, d) == []
    ensures r.nodes[d].parent == fs.nodes[d].parent
    ensures r.nodes.Keys == fs.nodes.Keys && forall k | k in fs.nodes && k != d :: r.nodes[k] == fs.nodes[k]
  {
    Update(fs, d, fs.nodes[d].(deleted := true, kind := DirKind([], [])))
  }

  /** Subdirectories removed (fs to b), then the files d lists at that
      point (b to c): emptying d completes its removal. */
  lemma SweepCloses(fs: FS, b: FS, c: FS, d: NodeId)
    requires IsDir(fs, d) && !fs.nodes[d].deleted
    requires Swept(fs.nodes, b.nodes) && Outline(b.nodes[d]) == Outline(fs.nodes[d])
    requires forall x | x in Dirs(fs, d) :: NewlyGone(fs.nodes, b.nodes, x)
    requires Swept(b.nodes, c.nodes) && Outline(c.nodes[d]) == Outline(b.nodes[d])
    requires forall x | x in Files(b, d) :: NewlyGone(b.nodes, c.nodes, x)
    ensures IsDir(c, d) && Swept(fs.nodes, Emptied(c, d).nodes) && NewlyGone(fs.nodes, Emptied(c, d).nodes, d)
  {
    SweptTrans(fs.nodes, b.nodes, c.nodes);
    assert Files(b, d) == Files(fs, d);
    SweptClose(fs.nodes, c.nodes, d);
    assert Emptied(c, d).nodes == c.nodes[d := c.nodes[d].(deleted := true, kind := DirKind([], []))];
  }

  // ---------------------------------------------------------------------------
  // Touching the subtree and nothing else

  /** S is closed under listing in m: whatever a directory of S lists is in S. */
  predicate Closed(m: Nodes, S: set<NodeId>) {
    forall k | k in S && k in m && m[k].kind.DirKind? ::
      && (forall c | c in m[k].kind.dirs :: c in S)
      && (forall c | c in m[k].kind.files :: c in S)
  }

  /** Outside S, m' has the nodes of m, cached references and contents aside. */
  predicate KeptOutside(m: Nodes, m': Nodes, S: set<NodeId>) {
    m'.Keys == m.Keys && forall k | k in m && k !in S :: Outline(m'[k]) == Outline(m[k])
  }

  /** Removals only ever empty lists, so a closed set stays closed. */
  lemma ClosedSwept(m: Nodes, m': Nodes, S: set<NodeId>)
    requires Closed(m, S) && Swept(m, m')
    ensures Closed(m', S)
  {
    forall k | k in S && k in m' && m'[k].kind.DirKind?
      ensures (forall c | c in m'[k].kind.dirs :: c in S) && (forall c | c in m'[k].kind.files :: c in S)
    {
      assert SweptAt(m, m', k);
    }
  }

  lemma KeptTrans(a: Nodes, b: Nodes, c: Nodes, S: set<NodeId>)
    requires KeptOutside(a, b, S) && KeptOutside(b, c, S)
    ensures KeptOutside(a, c, S)
  {
  }

  // ---------------------------------------------------------------------------
  // The cascade

  /** One `file.remove(true, false)` of the loop: the file is removed
      and no other node changes. */
  method RemoveListedFile(fs: FS, f: NodeId) returns (r: Out<()>)
    requires IsFile(fs, f)
    ensures r.res.Ok? ==> && r.fs.holds == fs.holds && r.fs.unused == fs.unused
                          && Swept(fs.nodes, r.fs.nodes) && NewlyGone(fs.nodes, r.fs.nodes, f)
                          && forall k | k in fs.nodes && k != f :: Outline(r.fs.nodes[k]) == Outline(fs.nodes[k])
  {
    r := RemoveFile(fs, f, true, false);
    if r.res.Ok? {
      RemoveFileLocked(fs, f);
    }
  }

  /** The file loop of remove: `file.remove(true, false)` on each listed
      file in turn, the first failure raised as it is (an entry that is not
      a file is the NullPointer the source would meet). Each file is
      removed, and no node but the listed files changes. */
  method RemoveFiles(fs: FS, fls: seq<NodeId>) returns (r: Out<()>)
    ensures r.res.Ok? ==> && r.fs.holds == fs.holds && r.fs.unused == fs.unused && Swept(fs.nodes, r.fs.nodes)
                          && (forall x | x in fls :: IsFile(fs, x) && NewlyGone(fs.nodes, r.fs.nodes, x))
                          && (forall k | k in fs.nodes && k !in fls :: Outline(r.fs.nodes[k]) == Outline(fs.nodes[k]))
    decreases |fls|
  {
    if fls == [] {
      SweptRefl(fs.nodes);
      return Out(fs, Ok(()));
    }
    if !IsFile(fs, fls[0]) {
      return Out(fs, Err(NullPointer));
    }
    var o := RemoveListedFile(fs, fls[0]);
    if o.res.Err? {
      return o;
    }
    r := RemoveFiles(o.fs, fls[1..]);
    if r.res.Ok? {
      FilesStep(fs, o.fs, r.fs, fls);
    }
  }

  lemma FilesStep(fs: FS, o: FS, r: FS, fls: seq<NodeId>)
    requires fls != [] && IsFile(fs, fls[0])
    requires && o.holds == fs.holds && o.unused == fs.unused
             && Swept(fs.nodes, o.nodes) && NewlyGone(fs.nodes, o.nodes, fls[0])
             && forall k | k in fs.nodes && k != fls[0] :: Outline(o.nodes[k]) == Outline(fs.nodes[k])
    requires && r.holds == o.holds && r.unused == o.unused && Swept(o.nodes, r.nodes)
             && (forall x | x in fls[1..] :: IsFile(o, x) && NewlyGone(o.nodes, r.nodes, x))
             && (forall k | k in o.nodes && k !in fls[1..] :: Outline(r.nodes[k]) == Outline(o.nodes[k]))
    ensures Swept(fs.nodes, r.nodes)
    ensures forall x | x in fls :: IsFile(fs, x) && NewlyGone(fs.nodes, r.nodes, x)
    ensures forall k | k in fs.nodes && k !in fls :: Outline(r.nodes[k]) == Outline(fs.nodes[k])
  {
    SweptTrans(fs.nodes, o.nodes, r.nodes);
    forall x | x in fls ensures IsFile(fs, x) && NewlyGone(fs.nodes, r.nodes, x) {
      if x != fls[0] {
        assert x in fls[1..];
        assert SweptAt(fs.nodes, o.nodes, x);
      }
    }
    forall k | k in fs.nodes && k !in fls ensures Outline(r.nodes[k]) == Outline(fs.nodes[k]) {
      assert k !in fls[1..];
    }
  }

  /** Nothing outside the subtree of d changes from m to m': every set of
      nodes closed under listing that holds d keeps its outside. */
  ghost predicate Confined(m: Nodes, m': Nodes, d: NodeId) {
    forall S | Closed(m, S) && d in S :: KeptOutside(m, m', S)
  }

  /** One `directory.remove(true, false)` of the loop, by what it leaves
      behind: the subdirectory removed, nothing outside its subtree
      touched, the locks as they were. */
  method RemoveChild(fs: FS, c: NodeId, fuel: nat) returns (r: Out<()>)
    requires IsDir(fs, c)
    ensures r.res.Ok? ==> && r.fs.holds == fs.holds && r.fs.unused == fs.unused
                          && Swept(fs.nodes, r.fs.nodes) && NewlyGone(fs.nodes, r.fs.nodes, c)
                          && Confined(fs.nodes, r.fs.nodes, c)
    decreases fuel, 3
  {
    r := RemoveSubtree(fs, c, true, fuel);
  }

  /** Nothing outside the subtrees of ds changes from m to m'. */
  ghost predicate ConfinedAll(m: Nodes, m': Nodes, ds: seq<NodeId>) {
    forall S | Closed(m, S) && (forall x | x in ds :: x in S) :: KeptOutside(m, m', S)
  }

  /** The subdirectory loop of remove: `directory.remove(true, false)`
      (RemoveChild) on each listed subdirectory in turn, the first failure
      raised as it is. Each is removed, and nothing outside their subtrees
      changes. */
  method SweepList(fs: FS, ds: seq<NodeId>, fuel: nat) returns (r: Out<()>)
    ensures r.res.Ok? ==> && r.fs.holds == fs.holds && r.fs.unused == fs.unused && Swept(fs.nodes, r.fs.nodes)
                          && (forall x | x in ds :: NewlyGone(fs.nodes, r.fs.nodes, x))
                          && ConfinedAll(fs.nodes, r.fs.nodes, ds)
    decreases fuel, 0, |ds|
  {
    if ds == [] {
      SweptRefl(fs.nodes);
      return Out(fs, Ok(()));
    }
    if fuel == 0 {
      return Out(fs, Err(IOError));
    }
    if !IsDir(fs, ds[0]) {
      return Out(fs, Err(NullPointer));
    }
    var o := RemoveChild(fs, ds[0], fuel - 1);
    if o.res.Err? {
      return o;
    }
    r := SweepList(o.fs, ds[1..], fuel);
    if r.res.Ok? {
      ListStep(fs, o.fs, r.fs, ds);
    }
  }

  lemma ListStep(fs: FS, o: FS, r: FS, ds: seq<NodeId>)
    requires ds != []
    requires && o.holds == fs.holds && o.unused == fs.unused
             && Swept(fs.nodes, o.nodes) && NewlyGone(fs.nodes, o.nodes, ds[0])
             && Confined(fs.nodes, o.nodes, ds[0])
    requires && r.holds == o.holds && r.unused == o.unused && Swept(o.nodes, r.nodes)
             && (forall x | x in ds[1..] :: NewlyGone(o.nodes, r.nodes, x))
             && ConfinedAll(o.nodes, r.nodes, ds[1..])
    ensures Swept(fs.nodes, r.nodes) && (forall x | x in ds :: NewlyGone(fs.nodes, r.nodes, x))
    ensures ConfinedAll(fs.nodes, r.nodes, ds)
  {
    SweptTrans(fs.nodes, o.nodes, r.nodes);
    forall x | x in ds ensures NewlyGone(fs.nodes, r.nodes, x) {
      if x != ds[0] {
        assert x in ds[1..];
      }
    }
    forall S | Closed(fs.nodes, S) && (forall x | x in ds :: x in S) ensures KeptOutside(fs.nodes, r.nodes, S) {
      assert ds[0] in S;
      assert KeptOutside(fs.nodes, o.nodes, S);
      ClosedSwept(fs.nodes, o.nodes, S);
      assert forall x | x in ds[1..] :: x in S;
      KeptTrans(fs.nodes, o.nodes, r.nodes, S);
    }
  }

  /** The subdirectories removed (fs to b), then the files (b to c): the
      directory emptied keeps the outside of its subtree. */
  lemma ClosesConfined(fs: FS, b: FS, c: FS, d: NodeId)
    requires IsDir(fs, d) && IsDir(c, d)
    requires Swept(fs.nodes, b.nodes) && ConfinedAll(fs.nodes, b.nodes, Dirs(fs, d))
    requires Outline(b.nodes[d]) == Outline(fs.nodes[d])
    requires c.nodes.Keys == b.nodes.Keys
    requires forall k | k in b.nodes && k !in Files(b, d) :: Outline(c.nodes[k]) == Outline(b.nodes[k])
    ensures Confined(fs.nodes, Emptied(c, d).nodes, d)
  {
    forall S | Closed(fs.nodes, S) && d in S ensures KeptOutside(fs.nodes, Emptied(c, d).nodes, S) {
      assert forall x | x in Dirs(fs, d) :: x in S;
      ClosedSwept(fs.nodes, b.nodes, S);
      assert Files(b, d) == Files(fs, d);
    }
  }

  /** The body of remove once the locks `held` are taken: isModifying
      raised; `directory.remove(true, false)` on each subdirectory, then
      `file.remove(true, false)` on each file the directory lists at that
      point; both lists emptied; the holds given back; the directory marked
      deleted and its flag lowered. A failure on the way is raised as it
      is, leaving the holds and the flag behind. If the subdirectory loop
      removed the directory itself, it is listed below itself, and the
      source recurses until the stack overflows: IOError stands for that,
      as for running out of fuel. */
  method Sweep(fs: FS, d: NodeId, held: seq<Hold>, fuel: nat) returns (r: Out<()>)
    requires IsDir(fs, d) && !fs.nodes[d].deleted
    ensures r.res.Ok? ==> && Swept(fs.nodes, r.fs.nodes) && NewlyGone(fs.nodes, r.fs.nodes, d)
                          && IsDir(r.fs, d) && Dirs(r.fs, d) == [] && Files(r.fs, d) == []
                          && r.fs.nodes[d].parent == fs.nodes[d].parent
                          && r.fs.holds == fs.holds - multiset(held) && r.fs.unused == fs.unused && !Modifying(r.fs, d)
                          && Confined(fs.nodes, r.fs.nodes, d)
    decreases fuel, 1
  {
    var m := SetModifying(fs, d, true);
    var b := SweepList(m, Dirs(m, d), fuel);
    if b.res.Err? {
      return b;
    }
    if b.fs.nodes[d].deleted {
      return Out(b.fs, Err(IOError));
    }
    assert SweptAt(fs.nodes, b.fs.nodes, d);
    var c := RemoveFiles(b.fs, Files(b.fs, d));
    if c.res.Err? {
      return c;
    }
    SweepCloses(fs, b.fs, c.fs, d);
    ClosesConfined(fs, b.fs, c.fs, d);
    r := Out(SetModifying(Release(Emptied(c.fs, d), held), d, false), Ok(()));
  }

  /** The locks remove(), move() and copy() take: the lock-down of the
      subtree in mode m, then the `extra` holds; all given back if one is
      refused. */
  function SubtreeLocks(fs: FS, d: NodeId, m: Mode, extra: seq<Hold>, fuel: nat): (r: Out<seq<Hold>>)
    ensures r.fs == fs.(holds := r.fs.holds)
    ensures r.res.Ok? ==> DownLocks(fs, d, m, fuel).Some?
    ensures r.res.Ok? ==> r.fs == fs.(holds := fs.holds + multiset(r.res.value))
  {
    var o := LockDown(fs, d, m, [], fuel);
    if o.res.Err? then o
    else
      LockDownSome(fs, d, m, [], fuel);
      LockDownAcquire(fs, d, m, [], fuel);
      var a := Acquire(o.fs, extra, o.res.value);
      assert a.res.Ok? ==> multiset(a.res.value) == multiset(o.res.value) + multiset(extra);
      a
  }

  /** With the lock-down list known, the subtree's holds and then the
      extra ones are taken in a row, all or nothing. */
  lemma SubtreeLocksAcquire(fs: FS, d: NodeId, m: Mode, extra: seq<Hold>, fuel: nat)
    ensures DownLocks(fs, d, m, fuel).Some? ==>
              SubtreeLocks(fs, d, m, extra, fuel) == Acquire(fs, DownLocks(fs, d, m, fuel).value + extra, [])
  {
    if DownLocks(fs, d, m, fuel).Some? {
      LockDownAcquire(fs, d, m, [], fuel);
      AcquireAppend(fs, DownLocks(fs, d, m, fuel).value, extra, []);
    }
  }

  /** Taking the locks of remove(), move() and copy(): the subtree's
      lock-down in mode m, then `extra`; when one is refused nothing is left
      held. */
  method TakeSubtreeLocks(fs: FS, d: NodeId, m: Mode, extra: seq<Hold>, fuel: nat) returns (r: Out<seq<Hold>>)
    ensures r.fs.nodes == fs.nodes && r.fs.flags == fs.flags
    ensures r.res.Ok? ==> DownLocks(fs, d, m, fuel).Some? && Grantable(fs, DownLocks(fs, d, m, fuel).value + extra)
    ensures r.res.Ok? ==> r.fs == fs.(holds := fs.holds + multiset(r.res.value))
    ensures DownLocks(fs, d, m, fuel).Some? && Grantable(fs, DownLocks(fs, d, m, fuel).value + extra) ==> r.res.Ok?
    ensures DownLocks(fs, d, m, fuel).Some? && !Grantable(fs, DownLocks(fs, d, m, fuel).value + extra) ==>
              r == Out(fs, Err(Locked))
  {
    r := SubtreeLocks(fs, d, m, extra, fuel);
    SubtreeLocksAcquire(fs, d, m, extra, fuel);
    assert fs.(holds := fs.holds - multiset([])) == fs;
  }

  /** The locks remove() needs on a live, removable directory (its
      subtree's write locks, then its parent's directories lock) cannot all
      be had. */
  predicate Refused(fs: FS, d: NodeId, fuel: nat) {
    && d in fs.nodes && !fs.nodes[d].deleted && fs.nodes[d].parent.Some?
    && DownLocks(fs, d, Exclusive, fuel).Some?
    && !Grantable(fs, DownLocks(fs, d, Exclusive, fuel).value + [Hold(DirsLock(fs.nodes[d].parent.value), Exclusive)])
  }

  /** A file of the directory open for reading or writing (its content
      lock held) refuses the locks of remove(). */
  lemma OpenFileRefuses(fs: FS, d: NodeId, f: NodeId, fuel: nat)
    requires IsDir(fs, d) && !fs.nodes[d].deleted && fs.nodes[d].parent.Some?
    requires DownLocks(fs, d, Exclusive, fuel).Some? && f in Files(fs, d)
    requires Count(fs, ContentLock(f), Exclusive) > 0 || Count(fs, ContentLock(f), Shared) > 0
    ensures Refused(fs, d, fuel)
  {
    OpenFileRefusesAll(fs, d, f, [Hold(DirsLock(fs.nodes[d].parent.value), Exclusive)], fuel);
  }

  /** Unhooking d from p after a removal that left p alive. */
  lemma UnhookedParent(fs: FS, s: FS, d: NodeId, p: NodeId)
    requires Swept(fs.nodes, s.nodes) && IsDir(s, p) && IsDir(s, d) && d in fs.nodes
    ensures var r := Detach(s, p, d);
      !r.nodes[p].deleted ==>
        && IsDir(fs, p) && Dirs(r, p) == RemoveFirst(Dirs(fs, p), d) && Files(r, p) == Files(fs, p)
  {
    assert SweptAt(fs.nodes, s.nodes, p);
  }

  /** Directory remove(isLocked, false), which is what remove() calls on
      each subdirectory: the deleted and root checks; unless the caller
      holds them already, the write lock-down of the subtree and then the
      parent's directories lock, all given back if one is refused; then the
      sweep. The directory ends deleted and empty, every lock taken is given
      back, nothing outside its subtree changes, and a refused lock leaves
      everything as it was. */
  method RemoveSubtree(fs: FS, d: NodeId, isLocked: bool, fuel: nat) returns (r: Out<()>)
    requires IsDir(fs, d)
    ensures fs.nodes[d].deleted ==> r == Out(fs, Err(AlreadyDeleted))
    ensures !fs.nodes[d].deleted && fs.nodes[d].parent.None? ==> r == Out(fs, Err(Unremovable))
    ensures !isLocked && Refused(fs, d, fuel) ==> r == Out(fs, Err(Locked))
    ensures r.res.Ok? ==> && fs.nodes[d].parent.Some? && Swept(fs.nodes, r.fs.nodes) && NewlyGone(fs.nodes, r.fs.nodes, d)
                          && IsDir(r.fs, d) && Dirs(r.fs, d) == [] && Files(r.fs, d) == []
                          && r.fs.nodes[d].parent == fs.nodes[d].parent
                          && r.fs.holds == fs.holds && r.fs.unused == fs.unused && !Modifying(r.fs, d)
                          && Confined(fs.nodes, r.fs.nodes, d)
    decreases fuel, 2
  {
    match RemoveCheck(fs.nodes[d]) {
      case Err(e) =>
        return Out(fs, Err(e));
      case Ok(_) =>
    }
    if isLocked {
      r := Sweep(fs, d, [], fuel);
      assert fs.holds - multiset([]) == fs.holds;
    } else {
      var a := TakeSubtreeLocks(fs, d, Exclusive, [Hold(DirsLock(fs.nodes[d].parent.value), Exclusive)], fuel);
      if a.res.Err? {
        return Out(a.fs, Err(a.res.error));
      }
      r := Sweep(a.fs, d, a.res.value, fuel);
    }
  }

  /** Directory remove(isLocked, deleteFromRoot); the public remove() is
      RemoveDir(fs, d, false, true, ·). RemoveSubtree, then, when
      deleteFromRoot, the directory unhooked from its parent's list. The
      source marks the directory deleted and lowers its flag after
      unhooking it; these touch other fields, so the order does not show.

      What it promises: every node of the subtree is deleted, to any depth;
      the directory ends empty; every lock is given back; for every set of
      nodes closed under listing that holds the directory, nothing outside
      it changes (but the parent it is unhooked from); and an open file
      below it, or any other refused lock, leaves the tree as it was. */
  method RemoveDir(fs: FS, d: NodeId, isLocked: bool, deleteFromRoot: bool, fuel: nat) returns (r: Out<()>)
    requires IsDir(fs, d)
    ensures fs.nodes[d].deleted ==> r == Out(fs, Err(AlreadyDeleted))
    ensures !fs.nodes[d].deleted && fs.nodes[d].parent.None? ==> r == Out(fs, Err(Unremovable))
    ensures !isLocked && Refused(fs, d, fuel) ==> r == Out(fs, Err(Locked))
    ensures r.res.Ok? ==> && !fs.nodes[d].deleted && fs.nodes[d].parent.Some?
                          && r.fs.nodes.Keys == fs.nodes.Keys
                          && IsDir(r.fs, d) && r.fs.nodes[d].deleted && Dirs(r.fs, d) == [] && Files(r.fs, d) == []
                          && r.fs.holds == fs.holds && r.fs.unused == fs.unused && !Modifying(r.fs, d)
                          && forall depth: nat :: SubtreeGone(fs.nodes, r.fs.nodes, d, depth)
    ensures r.res.Ok? && !deleteFromRoot ==>
              && Swept(fs.nodes, r.fs.nodes) && r.fs.nodes[d].parent == fs.nodes[d].parent
              && Confined(fs.nodes, r.fs.nodes, d)
    ensures r.res.Ok? && deleteFromRoot ==>
              && r.fs.nodes[d].parent.None?
              && var p := fs.nodes[d].parent.value;
                 && (forall S | Closed(fs.nodes, S) && d in S :: KeptOutside(fs.nodes, r.fs.nodes, S + {p}))
                 && IsDir(r.fs, p)
                 && (!r.fs.nodes[p].deleted ==>
                       && IsDir(fs, p)
                       && Dirs(r.fs, p) == RemoveFirst(Dirs(fs, p), d) && Files(r.fs, p) == Files(fs, p))
  {
    var s := RemoveSubtree(fs, d, isLocked, fuel);
    if s.res.Err? || !deleteFromRoot {
      if s.res.Ok? {
        forall depth: nat ensures SubtreeGone(fs.nodes, s.fs.nodes, d, depth) {
          SweptSubtree(fs.nodes, s.fs.nodes, d, depth);
        }
      }
      return s;
    }
    var p := fs.nodes[d].parent.value;
    if !IsDir(s.fs, p) {
      return Out(s.fs, Err(NullPointer));
    }
    r := Out(Detach(s.fs, p, d), Ok(()));
    forall depth: nat ensures SubtreeGone(fs.nodes, r.fs.nodes, d, depth) {
      SweptSubtree(fs.nodes, s.fs.nodes, d, depth);
      SubtreeKept(fs.nodes, s.fs.nodes, r.fs.nodes, d, depth);
    }
    UnhookedParent(fs, s.fs, d, p);
  }

  // ---------------------------------------------------------------------------
  // move

  /** The holds move() takes after the lock-down: the directory lists of
      the parent and of the destination, in that order. */
  function MoveExtra(p: NodeId, dest: NodeId): seq<Hold> {
    [Hold(DirsLock(p), Exclusive), Hold(DirsLock(dest), Exclusive)]
  }

  /** move() of a directory with a parent gets every lock it asks for. */
  predicate MoveDirGranted(fs: FS, d: NodeId, dest: NodeId, fuel: nat) {
    && ParentOf(fs, d).Some? && DownLocks(fs, d, Exclusive, fuel).Some?
    && Grantable(fs, DownLocks(fs, d, Exclusive, fuel).value + MoveExtra(ParentOf(fs, d).value, dest))
  }

  /** How move() of a directory can end other than well: Unremovable
      without a parent; a refused lock leaves the tree and the holds as they
      were; a name clash in the destination gives the holds back and leaves
      only the parent's flag lowered. */
  predicate MoveDirRefused(fs: FS, d: NodeId, dest: NodeId, fuel: nat, r: Out<()>)
    requires IsDir(fs, d) && IsDir(fs, dest)
  {
    && (ParentOf(fs, d).None? ==> r == Out(fs, Err(Unremovable)))
    && (ParentOf(fs, d).Some? && DownLocks(fs, d, Exclusive, fuel).Some? && !MoveDirGranted(fs, d, dest, fuel) ==>
          r == Out(fs, Err(Locked)))
    && (MoveDirGranted(fs, d, dest, fuel) && !NameFreeBut(fs, Dirs(fs, dest), d, NameOf(fs, d)) ==>
          r == Out(SetModifying(fs, ParentOf(fs, d).value, false), Err(NotUnique)))
  }

  /** move(destination) of a directory up to the flag it lowers at the
      end: Unremovable without a parent (there is no deleted check); the
      write lock-down of the subtree, then the parent's and the
      destination's directory-list locks, all given back when one is
      refused; the parent's isModifying raised; the name checked against
      the destination's subdirectories other than this one (a clash gives
      the holds back and lowers the flag); the directory leaves its
      parent's list and joins the destination's; the holds go back. */
  method MoveDirPasted(fs: FS, d: NodeId, dest: NodeId, fuel: nat) returns (r: Out<()>)
    requires IsDir(fs, d) && IsDir(fs, dest) && ParentDir(fs, d)
    ensures r.res.Ok? <==> MoveDirGranted(fs, d, dest, fuel) && NameFreeBut(fs, Dirs(fs, dest), d, NameOf(fs, d))
    ensures MoveDirRefused(fs, d, dest, fuel, r)
    ensures r.res.Ok? ==>
              && r.fs.nodes == Paste(Detach(fs, ParentOf(fs, d).value, d), dest, d).nodes
              && r.fs.holds == fs.holds && r.fs.unused == fs.unused && r.fs.disk == fs.disk
              && r.fs.flags == fs.flags + {ParentOf(fs, d).value}
  {
    var p := ParentOf(fs, d);
    if p.None? {
      return Out(fs, Err(Unremovable));
    }
    var a := TakeSubtreeLocks(fs, d, Exclusive, MoveExtra(p.value, dest), fuel);
    if a.res.Err? {
      return Out(a.fs, Err(a.res.error));
    }
    var held := a.res.value;
    var up := SetModifying(a.fs, p.value, true);
    var free := CheckUniqueBut(up, Dirs(up, dest), d, NameOf(up, d));
    if !free {
      r := Out(Release(SetModifying(up, p.value, false), held), Err(NotUnique));
      FlagTwice(fs, p.value, true, false);
      ReleaseTaken(SetModifying(fs, p.value, false), held);
      return;
    }
    MoveDirApart(fs, d, dest, fuel, 0);
    var moved := Paste(Detach(up, p.value, d), dest, d);
    RelinkNodes(up, fs, p.value, d, dest);
    r := Out(Release(moved, held), Ok(()));
  }

  /** move(destination) of a directory as written: the flag lowered at the
      end is `rootDirectory`'s, which paste has just made the destination,
      so the old parent's isModifying stays raised after every move that
      succeeds. */
  method MoveDir(fs: FS, d: NodeId, dest: NodeId, fuel: nat) returns (r: Out<()>)
    requires IsDir(fs, d) && IsDir(fs, dest) && ParentDir(fs, d)
    ensures r.res.Ok? <==> MoveDirGranted(fs, d, dest, fuel) && NameFreeBut(fs, Dirs(fs, dest), d, NameOf(fs, d))
    ensures MoveDirRefused(fs, d, dest, fuel, r)
    ensures r.res.Ok? ==>
              && r.fs.nodes == Paste(Detach(fs, ParentOf(fs, d).value, d), dest, d).nodes
              && r.fs.holds == fs.holds && r.fs.unused == fs.unused && r.fs.disk == fs.disk
              && r.fs.flags == fs.flags + {ParentOf(fs, d).value} - {dest}
              && Modifying(r.fs, ParentOf(fs, d).value)
  {
    var m := MoveDirPasted(fs, d, dest, fuel);
    if m.res.Err? {
      return m;
    }
    MoveDirApart(fs, d, dest, fuel, 0);
    r := Out(SetModifying(m.fs, dest, false), Ok(()));
  }

  /** move(destination) of a directory with the old parent's flag lowered:
      a move that succeeds leaves every flag as it found it but that one. */
  method MoveDirFixed(fs: FS, d: NodeId, dest: NodeId, fuel: nat) returns (r: Out<()>)
    requires IsDir(fs, d) && IsDir(fs, dest) && ParentDir(fs, d)
    ensures r.res.Ok? <==> MoveDirGranted(fs, d, dest, fuel) && NameFreeBut(fs, Dirs(fs, dest), d, NameOf(fs, d))
    ensures MoveDirRefused(fs, d, dest, fuel, r)
    ensures r.res.Ok? ==>
              && r.fs.nodes == Paste(Detach(fs, ParentOf(fs, d).value, d), dest, d).nodes
              && r.fs.holds == fs.holds && r.fs.unused == fs.unused && r.fs.disk == fs.disk
              && r.fs.flags == fs.flags - {ParentOf(fs, d).value}
  {
    var m := MoveDirPasted(fs, d, dest, fuel);
    if m.res.Err? {
      return m;
    }
    r := Out(SetModifying(m.fs, ParentOf(fs, d).value, false), Ok(()));
  }

  /** Every lock move() asks for is a distinct write hold; so when they are
      all granted, the directory is not its own parent, the destination is
      not the parent it already has, and the destination does not lie in
      the directory's subtree (itself included), to any depth. */
  lemma MoveDirApart(fs: FS, d: NodeId, dest: NodeId, fuel: nat, depth: nat)
    requires MoveDirGranted(fs, d, dest, fuel)
    ensures ParentOf(fs, d).value != d && ParentOf(fs, d).value != dest
    ensures !Below(fs, d, dest, depth)
  {
    var p := ParentOf(fs, d).value;
    var dl := DownLocks(fs, d, Exclusive, fuel).value;
    var hs := dl + MoveExtra(p, dest);
    DownLocksMode(fs, d, Exclusive, fuel);
    ModeAppend(dl, MoveExtra(p, dest), Exclusive);
    GrantWrite(fs, hs);
    assert hs[|dl|] == Hold(DirsLock(p), Exclusive) && hs[|dl| + 1] == Hold(DirsLock(dest), Exclusive);
    forall i | 0 <= i < |dl| ensures dl[i].lock != DirsLock(p) && dl[i].lock != DirsLock(dest) {
      assert hs[i] == dl[i];
    }
    if p == d {
      DirsLockListed(fs, d, d, Exclusive, 0, fuel);
      assert false;
    }
    if Below(fs, d, dest, depth) {
      DirsLockListed(fs, d, dest, Exclusive, depth, fuel);
      assert false;
    }
  }

  /** After a move that succeeds, the directory is listed by the
      destination (at the end) and no longer by its old parent (its first
      entry dropped); the file lists and every name are unchanged. */
  lemma MoveDirRelinks(fs: FS, d: NodeId, dest: NodeId, fuel: nat)
    requires IsDir(fs, d) && IsDir(fs, dest) && ParentDir(fs, d) && MoveDirGranted(fs, d, dest, fuel)
    ensures var p := ParentOf(fs, d).value;
            var r := Paste(Detach(fs, p, d), dest, d);
            && r.nodes.Keys == fs.nodes.Keys && r.nodes[d].parent == Some(dest)
            && IsDir(r, dest) && Dirs(r, dest) == Dirs(fs, dest) + [d] && Files(r, dest) == Files(fs, dest)
            && IsDir(r, p) && Dirs(r, p) == RemoveFirst(Dirs(fs, p), d) && Files(r, p) == Files(fs, p)
            && forall k | k in fs.nodes :: NameOf(r, k) == NameOf(fs, k)
  {
    MoveDirApart(fs, d, dest, fuel, 0);
  }

  /** A move that succeeds keeps the names of the destination's
      subdirectories unique, and those of the old parent's, when they were. */
  lemma MoveDirKeepsUnique(fs: FS, d: NodeId, dest: NodeId, fuel: nat)
    requires IsDir(fs, d) && IsDir(fs, dest) && ParentDir(fs, d) && MoveDirGranted(fs, d, dest, fuel)
    requires NameFreeBut(fs, Dirs(fs, dest), d, NameOf(fs, d)) && d !in Dirs(fs, dest)
    ensures var p := ParentOf(fs, d).value;
            var r := Paste(Detach(fs, p, d), dest, d);
            && (Unique(fs, Dirs(fs, dest)) ==> Unique(r, Dirs(r, dest)))
            && (Unique(fs, Dirs(fs, p)) ==> Unique(r, Dirs(r, p)))
  {
    var p := ParentOf(fs, d).value;
    var r := Paste(Detach(fs, p, d), dest, d);
    MoveDirRelinks(fs, d, dest, fuel);
    NameFreeButSelf(fs, Dirs(fs, dest), d);
    if Unique(fs, Dirs(fs, dest)) {
      UniqueAppend(fs, r, Dirs(fs, dest), d);
    }
    if Unique(fs, Dirs(fs, p)) {
      UniqueRemoveFirst(fs, r, Dirs(fs, p), d);
    }
  }

  /** An open file anywhere directly in the directory refuses the move:
      nothing changes. */
  lemma OpenFileBlocksMove(fs: FS, d: NodeId, dest: NodeId, f: NodeId, fuel: nat)
    requires IsDir(fs, d) && ParentOf(fs, d).Some? && DownLocks(fs, d, Exclusive, fuel).Some? && f in Files(fs, d)
    requires Count(fs, ContentLock(f), Exclusive) > 0 || Count(fs, ContentLock(f), Shared) > 0
    ensures !MoveDirGranted(fs, d, dest, fuel)
  {
    OpenFileRefusesAll(fs, d, f, MoveExtra(ParentOf(fs, d).value, dest), fuel);
  }
}
