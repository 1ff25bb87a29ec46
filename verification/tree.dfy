/** The in-memory tree of VirtualFSNode objects. Every directory and file is
    a record in one arena, addressed by its id; object references become
    ids. The lock state of the tree is the multiset of lock holds of the one
    thread the model runs: a ReentrantReadWriteLock seen from its owning
    thread is just how many read and write holds it has. */
module Tree {
  import opened Wrappers
  import opened Bytes

  type NodeId = nat

  /** What a VirtualDirectory adds (its two child lists) or a VirtualFile adds (the head block of its content, NONE when
      it has none, and its dates, as clock readings). */
  datatype Kind =
    | DirKind(dirs: seq<NodeId>, files: seq<NodeId>)
    | FileKind(content: int, createdAt: int, modifiedAt: int)

  /** A node: its name, its parent (rootDirectory), the deleted flag, whether
      it holds a reference to its container (the virtualFS field), and its kind. */
  datatype Node = Node(name: string, parent: Option<NodeId>, deleted: bool, vfs: bool, kind: Kind)

  /** The locks of the tree: a directory's name, directory-list and file-list
      locks, and a file's content lock. */
  datatype LockRef = NameLock(dir: NodeId) | DirsLock(dir: NodeId) | FilesLock(dir: NodeId) | ContentLock(file: NodeId)

  datatype Mode = Shared | Exclusive

  /** One hold of a lock: what a `Lock` object in the source's lock lists stands for. */
  datatype Hold = Hold(lock: LockRef, mode: Mode)

  /** The nodes of the arena, by id. */
  type Nodes = map<NodeId, Node>

  /** The tree, the directories whose isModifying flag is set, the holds,
      the next unused id and the container file. */
  datatype FS = FS(nodes: Nodes, flags: set<NodeId>, holds: multiset<Hold>, unused: NodeId, disk: Disk)

  /** What an operation leaves behind, together with its result or the
      error it raises (an error path may leave locks or flags behind, as the
      source does). */
  datatype Out<T> = Out(fs: FS, res: Result<T>)

  // ---------------------------------------------------------------------------
  // Reading and updating the arena

  predicate IsDir(fs: FS, id: NodeId) {
    id in fs.nodes && fs.nodes[id].kind.DirKind?
  }

  predicate IsFile(fs: FS, id: NodeId) {
    id in fs.nodes && fs.nodes[id].kind.FileKind?
  }

  function Dirs(fs: FS, id: NodeId): seq<NodeId>
    requires IsDir(fs, id)
  {
    fs.nodes[id].kind.dirs
  }

  function Files(fs: FS, id: NodeId): seq<NodeId>
    requires IsDir(fs, id)
  {
    fs.nodes[id].kind.files
  }

  function NameOf(fs: FS, id: NodeId): string {
    if id in fs.nodes then fs.nodes[id].name else ""
  }

  function Update(fs: FS, id: NodeId, n: Node): FS {
    fs.(nodes := fs.nodes[id := n])
  }

  /** isModifying.set(v) on a directory: the flag reads v afterwards and
      nothing but the flag changes. */
  function SetModifying(fs: FS, id: NodeId, v: bool): (r: FS)
    ensures r.nodes == fs.nodes && r.holds == fs.holds && r.unused == fs.unused && r.disk == fs.disk
    ensures IsDir(fs, id) ==> Modifying(r, id) == v
    ensures forall k | k != id :: Modifying(r, k) == Modifying(fs, k)
  {
    if !IsDir(fs, id) then fs
    else if v then fs.(flags := fs.flags + {id})
    else fs.(flags := fs.flags - {id})
  }

  /** Only the last of two flag settings counts. */
  lemma FlagTwice(fs: FS, id: NodeId, u: bool, v: bool)
    ensures SetModifying(SetModifying(fs, id, u), id, v) == SetModifying(fs, id, v)
  {
  }

  /** Setting a flag and replacing the holds commute. */
  lemma FlagHolds(fs: FS, hs: multiset<Hold>, id: NodeId, v: bool)
    ensures SetModifying(fs.(holds := hs), id, v) == SetModifying(fs, id, v).(holds := hs)
  {
  }

  function SetParent(fs: FS, id: NodeId, p: Option<NodeId>): FS {
    if id in fs.nodes then Update(fs, id, fs.nodes[id].(parent := p)) else fs
  }

  function SetDirs(fs: FS, id: NodeId, s: seq<NodeId>): FS
    requires IsDir(fs, id)
  {
    var n := fs.nodes[id];
    Update(fs, id, n.(kind := n.kind.(dirs := s)))
  }

  function SetFiles(fs: FS, id: NodeId, s: seq<NodeId>): FS
    requires IsDir(fs, id)
  {
    var n := fs.nodes[id];
    Update(fs, id, n.(kind := n.kind.(files := s)))
  }

  function SetDeleted(fs: FS, id: NodeId): FS {
    if id in fs.nodes then Update(fs, id, fs.nodes[id].(deleted := true)) else fs
  }

  /** contentPosition = head, as a close listener sets it. */
  function SetContent(fs: FS, id: NodeId, head: int): (r: FS)
    ensures r.flags == fs.flags && r.holds == fs.holds && r.unused == fs.unused && r.disk == fs.disk
    ensures r.nodes.Keys == fs.nodes.Keys && forall k | k in fs.nodes && k != id :: r.nodes[k] == fs.nodes[k]
  {
    if IsFile(fs, id) then
      var n := fs.nodes[id];
      Update(fs, id, n.(kind := n.kind.(content := head)))
    else fs
  }

  /** rootDirectory of a node; None also for an id not in the arena. */
  function ParentOf(fs: FS, id: NodeId): Option<NodeId> {
    if id in fs.nodes then fs.nodes[id].parent else None
  }

  /** `if (rootDirectory != null) rootDirectory.isModifying.set(v)`. */
  function SetFlagOf(fs: FS, p: Option<NodeId>, v: bool): (r: FS)
    ensures r.nodes == fs.nodes && r.holds == fs.holds && r.unused == fs.unused && r.disk == fs.disk
  {
    if p.Some? then SetModifying(fs, p.value, v) else fs
  }

  predicate Modifying(fs: FS, id: NodeId) {
    IsDir(fs, id) && id in fs.flags
  }

  /** A node without its cached container reference: the part of it that
      makes up the tree. */
  function Shape(n: Node): Node {
    n.(vfs := false)
  }

  /** fs' has the tree of fs: only flags, holds, the container and unused
      ids may differ, and container references may have been found and
      cached since. */
  predicate SameShape(fs: FS, fs': FS) {
    && fs'.nodes.Keys == fs.nodes.Keys
    && (forall k | k in fs.nodes :: Shape(fs'.nodes[k]) == Shape(fs.nodes[k]))
    && (forall k | k in fs.nodes && fs.nodes[k].vfs :: fs'.nodes[k].vfs)
  }

  /** Every id in use is below the next unused one: what makes the objects
      the source creates with `new` fresh in the model. */
  predicate Arena(fs: FS) {
    forall k | k in fs.nodes :: k < fs.unused
  }

  /** Add a new node under the next unused id. */
  function Alloc(fs: FS, n: Node): (r: (FS, NodeId))
    ensures r.1 == fs.unused && r.0.unused == fs.unused + 1
    ensures r.0.nodes == fs.nodes[fs.unused := n]
    ensures r.0.holds == fs.holds && r.0.disk == fs.disk && r.0.flags == fs.flags
    ensures Arena(fs) ==> Arena(r.0) && r.1 !in fs.nodes
  {
    (fs.(nodes := fs.nodes[fs.unused := n], unused := fs.unused + 1), fs.unused)
  }

  // ---------------------------------------------------------------------------
  // VirtualFSNode

  /** The constructor's name check: the empty name is refused. */
  function NewNode(name: string, parent: Option<NodeId>, vfs: bool, kind: Kind): (r: Result<Node>)
    ensures r.Err? <==> name == ""
    ensures r.Err? ==> r.error == EmptyName
    ensures r.Ok? ==> r.value.name == name && r.value.parent == parent && r.value.kind == kind
                      && !r.value.deleted && r.value.vfs == vfs
  {
    if name == "" then Err(EmptyName) else Ok(Node(name, parent, false, vfs, kind))
  }

  /** The base rename: the empty name is refused and the node kept;
      otherwise the name is replaced and nothing else. */
  function RenameNode(n: Node, name: string): (r: Result<Node>)
    ensures r.Err? <==> name == ""
    ensures r.Err? ==> r.error == EmptyName
    ensures r.Ok? ==> r.value.name == name && r.value == n.(name := name)
  {
    if name == "" then Err(EmptyName) else Ok(n.(name := name))
  }

  /** The base remove: only its two checks, deleted first. */
  function RemoveCheck(n: Node): (r: Result<()>)
    ensures r.Ok? <==> !n.deleted && n.parent.Some?
    ensures n.deleted ==> r == Err(AlreadyDeleted)
    ensures !n.deleted && n.parent.None? ==> r == Err(Unremovable)
  {
    if n.deleted then Err(AlreadyDeleted)
    else if n.parent.None? then Err(Unremovable)
    else Ok(())
  }

  /** The chain of parents from id reaches, within fuel steps, a node that
      holds a container reference. */
  predicate Reaches(fs: FS, id: NodeId, fuel: nat)
    decreases fuel
  {
    id in fs.nodes
    && (fs.nodes[id].vfs
        || (fs.nodes[id].parent.Some? && fuel > 0 && Reaches(fs, fs.nodes[id].parent.value, fuel - 1)))
  }

  /** The chain of parents from id ends, within fuel steps, at a root
      without a container reference, and nothing on it has one. */
  predicate Orphan(fs: FS, id: NodeId, fuel: nat)
    decreases fuel
  {
    id in fs.nodes && !fs.nodes[id].vfs
    && (fs.nodes[id].parent.None? || (fuel > 0 && Orphan(fs, fs.nodes[id].parent.value, fuel - 1)))
  }

  /** fs' is fs with some more container references cached. */
  predicate Cached(fs: FS, fs': FS) {
    && fs'.holds == fs.holds && fs'.unused == fs.unused && fs'.disk == fs.disk && fs'.flags == fs.flags
    && fs'.nodes.Keys == fs.nodes.Keys
    && (forall k | k in fs.nodes :: fs'.nodes[k] == fs.nodes[k].(vfs := fs'.nodes[k].vfs))
    && (forall k | k in fs.nodes && fs.nodes[k].vfs :: fs'.nodes[k].vfs)
  }

  /** getVirtualFS: the node's own container, else the one its parent finds
      (which the node then keeps), else NullVirtualFS. `fuel` bounds the
      walk up the parents. */
  function FindVfs(fs: FS, id: NodeId, fuel: nat): (r: Out<()>)
    ensures r.res.Ok? <==> Reaches(fs, id, fuel)
    ensures r.res == Err(NullVirtualFS) <==> Orphan(fs, id, fuel)
    ensures Cached(fs, r.fs)
    ensures r.res.Ok? ==> r.fs.nodes[id].vfs
    decreases fuel
  {
    if id !in fs.nodes then Out(fs, Err(NullPointer))
    else if fs.nodes[id].vfs then Out(fs, Ok(()))
    else match fs.nodes[id].parent
      case None => Out(fs, Err(NullVirtualFS))
      case Some(p) =>
        if fuel == 0 then Out(fs, Err(IOError))
        else
          var o := FindVfs(fs, p, fuel - 1);
          if o.res.Err? then o
          else Out(Update(o.fs, id, o.fs.nodes[id].(vfs := true)), Ok(()))
  }

  /** Once found, the container is the node's own: the next lookup needs no walk. */
  lemma FindVfsCached(fs: FS, id: NodeId, fuel: nat)
    requires FindVfs(fs, id, fuel).res.Ok?
    ensures var fs' := FindVfs(fs, id, fuel).fs;
      forall k :: FindVfs(fs', id, k) == Out(fs', Ok(()))
  {
  }

  /** Raising or lowering a flag changes no part of the tree. */
  lemma FlagShape(fs: FS, id: NodeId, v: bool)
    ensures SameShape(fs, SetModifying(fs, id, v))
    ensures forall k | k != id :: Modifying(SetModifying(fs, id, v), k) <==> Modifying(fs, k)
    ensures IsDir(fs, id) ==> (Modifying(SetModifying(fs, id, v), id) <==> v)
  {
  }

  /** A lookup changes no part of the tree. */
  lemma CachedShape(fs: FS, fs': FS)
    requires Cached(fs, fs')
    ensures SameShape(fs, fs')
  {
    forall k | k in fs.nodes ensures Shape(fs'.nodes[k]) == Shape(fs.nodes[k]) {
      assert fs'.nodes[k] == fs.nodes[k].(vfs := fs'.nodes[k].vfs);
    }
  }

  // ---------------------------------------------------------------------------
  // Lists

  /** List.remove(Object): drop the first occurrence, if any. */
  function RemoveFirst(s: seq<NodeId>, x: NodeId): (r: seq<NodeId>)
    ensures x !in s ==> r == s
    ensures x in s ==> |r| == |s| - 1
  {
    if |s| == 0 then []
    else if s[0] == x then s[1..]
    else [s[0]] + RemoveFirst(s[1..], x)
  }

  /** Removing an element appended to a list that did not hold it gives the list back. */
  lemma {:induction false} RemoveAppended(s: seq<NodeId>, x: NodeId)
    requires x !in s
    ensures RemoveFirst(s + [x], x) == s
  {
    if |s| > 0 {
      assert (s + [x])[1..] == s[1..] + [x];
      RemoveAppended(s[1..], x);
    }
  }

  /** The list entries keep their order: what is left is s with one entry cut out. */
  lemma {:induction false} RemoveFirstCut(s: seq<NodeId>, x: NodeId) returns (i: int)
    requires x in s
    ensures 0 <= i < |s| && s[i] == x && x !in s[..i]
    ensures RemoveFirst(s, x) == s[..i] + s[i + 1..]
  {
    if s[0] == x {
      i := 0;
    } else {
      var k := RemoveFirstCut(s[1..], x);
      i := k + 1;
      assert s[..i] == [s[0]] + s[1..][..k];
      assert s[i + 1..] == s[1..][k + 1..];
    }
  }

  /** Recording the same head block in two trees of one shape keeps them
      of one shape. */
  lemma ContentShape(fs: FS, fs': FS, f: NodeId, head: int)
    requires SameShape(fs, fs')
    ensures SameShape(SetContent(fs, f, head), SetContent(fs', f, head))
  {
    if IsFile(fs, f) {
      assert Shape(fs'.nodes[f]) == Shape(fs.nodes[f]);
    }
  }

  lemma ShapeTrans(a: FS, b: FS, c: FS)
    requires SameShape(a, b) && SameShape(b, c)
    ensures SameShape(a, c)
  {
  }

  /** Recording the head block a file already has changes nothing. */
  lemma HeadKept(fs: FS, f: NodeId)
    requires IsFile(fs, f)
    ensures SetContent(fs, f, fs.nodes[f].kind.content) == fs
  {
    assert fs.nodes[f := fs.nodes[f]] == fs.nodes;
  }

  /** What two trees of one shape agree on at a node. */
  lemma ShapeAt(fs: FS, fs': FS, k: NodeId)
    requires SameShape(fs, fs') && k in fs.nodes
    ensures k in fs'.nodes && IsDir(fs', k) == IsDir(fs, k) && IsFile(fs', k) == IsFile(fs, k)
    ensures fs'.nodes[k].name == fs.nodes[k].name && fs'.nodes[k].parent == fs.nodes[k].parent
    ensures fs'.nodes[k].deleted == fs.nodes[k].deleted
    ensures IsDir(fs, k) ==> Dirs(fs', k) == Dirs(fs, k) && Files(fs', k) == Files(fs, k)
    ensures IsFile(fs, k) ==> fs'.nodes[k].kind == fs.nodes[k].kind
  {
    assert Shape(fs'.nodes[k]) == Shape(fs.nodes[k]);
  }

  /** A node that reaches a container still does with more fuel, in a
      tree with more nodes, the same parent links and more cached container
      references. */
  lemma {:induction false} ReachesGrown(fs: FS, fs': FS, x: NodeId, fuel: nat, fuel': nat)
    requires Reaches(fs, x, fuel) && fuel <= fuel' && fs.nodes.Keys <= fs'.nodes.Keys
    requires forall k | k in fs.nodes :: fs'.nodes[k].parent == fs.nodes[k].parent
    requires forall k | k in fs.nodes && fs.nodes[k].vfs :: fs'.nodes[k].vfs
    ensures Reaches(fs', x, fuel')
    decreases fuel
  {
    if !fs'.nodes[x].vfs {
      ReachesGrown(fs, fs', fs.nodes[x].parent.value, fuel - 1, fuel' - 1);
    }
  }

  /** Trees of one shape reach the same containers, and more. */
  lemma ShapeReaches(fs: FS, fs': FS, x: NodeId, fuel: nat)
    requires SameShape(fs, fs') && Reaches(fs, x, fuel)
    ensures Reaches(fs', x, fuel)
  {
    forall k | k in fs.nodes ensures fs'.nodes[k].parent == fs.nodes[k].parent {
      ShapeAt(fs, fs', k);
    }
    ReachesGrown(fs, fs', x, fuel, fuel);
  }

  /** A node without its cached container reference and without the head
      block of its content: what content operations leave alone. */
  function Outline(n: Node): Node {
    n.(vfs := false, kind := if n.kind.FileKind? then n.kind.(content := 0) else n.kind)
  }

  /** fs' has the nodes of fs and differs from it at most in cached
      container references and file contents. */
  predicate SameOutline(fs: FS, fs': FS) {
    && fs'.nodes.Keys == fs.nodes.Keys
    && (forall k | k in fs.nodes :: Outline(fs'.nodes[k]) == Outline(fs.nodes[k]))
  }

  lemma ShapeOutline(fs: FS, fs': FS)
    requires SameShape(fs, fs')
    ensures SameOutline(fs, fs')
  {
    forall k | k in fs.nodes ensures Outline(fs'.nodes[k]) == Outline(fs.nodes[k]) {
      assert Shape(fs'.nodes[k]) == Shape(fs.nodes[k]);
    }
  }

  /** Recording a head block changes no outline. */
  lemma ContentOutline(fs: FS, f: NodeId, head: int)
    ensures SameOutline(fs, SetContent(fs, f, head))
  {
  }

  lemma OutlineTrans(a: FS, b: FS, c: FS)
    requires SameOutline(a, b) && SameOutline(b, c)
    ensures SameOutline(a, c)
  {
  }

  /** What two trees of one outline agree on at a node. */
  lemma OutlineAt(fs: FS, fs': FS, k: NodeId)
    requires SameOutline(fs, fs') && k in fs.nodes
    ensures k in fs'.nodes && IsDir(fs', k) == IsDir(fs, k) && IsFile(fs', k) == IsFile(fs, k)
    ensures fs'.nodes[k].name == fs.nodes[k].name && fs'.nodes[k].parent == fs.nodes[k].parent
    ensures fs'.nodes[k].deleted == fs.nodes[k].deleted
    ensures IsDir(fs, k) ==> Dirs(fs', k) == Dirs(fs, k) && Files(fs', k) == Files(fs, k)
  {
    assert Outline(fs'.nodes[k]) == Outline(fs.nodes[k]);
  }

  // ---------------------------------------------------------------------------
  // remove(child) and paste(child)

  /** remove(file) / remove(directory): the child leaves the list of its
      kind (its first occurrence there) and its parent link is cleared. */
  function Detach(fs: FS, dir: NodeId, c: NodeId): (r: FS)
    requires IsDir(fs, dir) && c in fs.nodes
    ensures IsDir(r, dir) && r.nodes.Keys == fs.nodes.Keys
    ensures r.holds == fs.holds && r.unused == fs.unused && r.disk == fs.disk && r.flags == fs.flags
    ensures forall k | k in fs.nodes :: r.nodes[k].name == fs.nodes[k].name && r.nodes[k].deleted == fs.nodes[k].deleted
    ensures r.nodes[c].parent.None?
    ensures fs.nodes[c].kind.DirKind? ==>
              Dirs(r, dir) == RemoveFirst(Dirs(fs, dir), c) && Files(r, dir) == Files(fs, dir)
    ensures fs.nodes[c].kind.FileKind? ==>
              Files(r, dir) == RemoveFirst(Files(fs, dir), c) && Dirs(r, dir) == Dirs(fs, dir)
    ensures c != dir ==> r.nodes[c] == fs.nodes[c].(parent := None)
    ensures forall k | k in fs.nodes && k != dir && k != c :: r.nodes[k] == fs.nodes[k]
  {
    var fs1 := if fs.nodes[c].kind.DirKind? then SetDirs(fs, dir, RemoveFirst(Dirs(fs, dir), c))
               else SetFiles(fs, dir, RemoveFirst(Files(fs, dir), c));
    SetParent(fs1, c, None)
  }

  /** paste(child): the child is appended to the list of its kind and this
      directory becomes its parent. */
  function Paste(fs: FS, dir: NodeId, c: NodeId): (r: FS)
    requires IsDir(fs, dir) && c in fs.nodes
    ensures IsDir(r, dir) && r.nodes.Keys == fs.nodes.Keys
    ensures r.holds == fs.holds && r.unused == fs.unused && r.disk == fs.disk && r.flags == fs.flags
    ensures forall k | k in fs.nodes :: r.nodes[k].name == fs.nodes[k].name && r.nodes[k].deleted == fs.nodes[k].deleted
    ensures r.nodes[c].parent == Some(dir)
    ensures fs.nodes[c].kind.DirKind? ==> Dirs(r, dir) == Dirs(fs, dir) + [c] && Files(r, dir) == Files(fs, dir)
    ensures fs.nodes[c].kind.FileKind? ==> Files(r, dir) == Files(fs, dir) + [c] && Dirs(r, dir) == Dirs(fs, dir)
    ensures c != dir ==> r.nodes[c] == fs.nodes[c].(parent := Some(dir))
    ensures forall k | k in fs.nodes && k != dir && k != c :: r.nodes[k] == fs.nodes[k]
  {
    var fs1 := if fs.nodes[c].kind.DirKind? then SetDirs(fs, dir, Dirs(fs, dir) + [c])
               else SetFiles(fs, dir, Files(fs, dir) + [c]);
    SetParent(fs1, c, Some(dir))
  }

  /** Relinking a node depends on the nodes alone, not on the flags or the
      holds. */
  lemma RelinkNodes(a: FS, b: FS, dir: NodeId, c: NodeId, dest: NodeId)
    requires a.nodes == b.nodes && IsDir(a, dir) && IsDir(a, dest) && c in a.nodes
    ensures Paste(Detach(a, dir, c), dest, c).nodes == Paste(Detach(b, dir, c), dest, c).nodes
  {
  }

  /** Detaching a child just pasted into a directory that did not list it
      gives back the directory's lists, and the child is left without a parent. */
  lemma PasteDetach(fs: FS, dir: NodeId, c: NodeId)
    requires IsDir(fs, dir) && c in fs.nodes && c != dir
    requires c !in Dirs(fs, dir) && c !in Files(fs, dir)
    ensures Detach(Paste(fs, dir, c), dir, c) == SetParent(fs, c, None)
  {
    var p := Paste(fs, dir, c);
    var q := Detach(p, dir, c);
    var e := SetParent(fs, c, None);
    if fs.nodes[c].kind.DirKind? {
      RemoveAppended(Dirs(fs, dir), c);
    } else {
      RemoveAppended(Files(fs, dir), c);
    }
    assert q.nodes[dir] == e.nodes[dir];
    assert q.nodes[c] == e.nodes[c];
    assert forall k | k in q.nodes :: q.nodes[k] == e.nodes[k];
    assert q.nodes == e.nodes;
  }

  // ---------------------------------------------------------------------------
  // checkForUniqueDirectoryName / checkForUniqueFileName

  /** No entry of s is called name. */
  predicate NameFree(fs: FS, s: seq<NodeId>, name: string) {
    forall i :: 0 <= i < |s| ==> NameOf(fs, s[i]) != name
  }

  /** No entry of s other than self is called name. */
  predicate NameFreeBut(fs: FS, s: seq<NodeId>, self: NodeId, name: string) {
    forall i :: 0 <= i < |s| && s[i] != self ==> NameOf(fs, s[i]) != name
  }

  /** No two entries of s share a name: what the uniqueness checks are
      there to keep for each list of a directory. */
  predicate Unique(fs: FS, s: seq<NodeId>) {
    forall i, j :: 0 <= i < j < |s| ==> NameOf(fs, s[i]) != NameOf(fs, s[j])
  }

  /** Appending an entry whose name no entry has keeps the names distinct
      (names read in a state that agrees on every name). */
  lemma UniqueAppend(fs: FS, fs': FS, s: seq<NodeId>, x: NodeId)
    requires Unique(fs, s) && NameFree(fs, s, NameOf(fs, x))
    requires forall k :: NameOf(fs', k) == NameOf(fs, k)
    ensures Unique(fs', s + [x])
  {
    var t := s + [x];
    forall i, j | 0 <= i < j < |t| ensures NameOf(fs', t[i]) != NameOf(fs', t[j]) {
      if j == |s| {
        assert NameOf(fs, s[i]) != NameOf(fs, x);
      } else {
        assert NameOf(fs, s[i]) != NameOf(fs, s[j]);
      }
    }
  }

  /** Taking an entry out of a list of distinct names keeps them distinct. */
  lemma UniqueRemoveFirst(fs: FS, fs': FS, s: seq<NodeId>, x: NodeId)
    requires Unique(fs, s)
    requires forall k :: NameOf(fs', k) == NameOf(fs, k)
    ensures Unique(fs', RemoveFirst(s, x))
  {
    var t := RemoveFirst(s, x);
    if x in s {
      var c := RemoveFirstCut(s, x);
      forall i, j | 0 <= i < j < |t| ensures NameOf(fs', t[i]) != NameOf(fs', t[j]) {
        var i' := if i < c then i else i + 1;
        var j' := if j < c then j else j + 1;
        assert t[i] == s[i'] && t[j] == s[j'];
      }
    } else {
      forall i, j | 0 <= i < j < |t| ensures NameOf(fs', t[i]) != NameOf(fs', t[j]) {
        assert NameOf(fs, s[i]) != NameOf(fs, s[j]);
      }
    }
  }

  /** Giving one entry a name no other entry has keeps the names distinct. */
  lemma UniqueRenamed(fs: FS, fs': FS, s: seq<NodeId>, self: NodeId, name: string)
    requires Unique(fs, s) && NameFreeBut(fs, s, self, name)
    requires forall k :: NameOf(fs', k) == if k == self then name else NameOf(fs, k)
    ensures Unique(fs', s)
  {
    forall i, j | 0 <= i < j < |s| ensures NameOf(fs', s[i]) != NameOf(fs', s[j]) {
      if s[i] == self || s[j] == self {
        assert s[i] != s[j];
      }
    }
  }

  /** The parent of a node, if any, is a directory: rootDirectory is typed
      VirtualDirectory in the source. */
  predicate ParentDir(fs: FS, id: NodeId) {
    ParentOf(fs, id).Some? ==> IsDir(fs, ParentOf(fs, id).value)
  }

  // ---------------------------------------------------------------------------
  // Locks

  function Count(fs: FS, r: LockRef, m: Mode): nat {
    fs.holds[Hold(r, m)]
  }

  /** No hold of the lock at all. */
  predicate Free(fs: FS, r: LockRef) {
    Count(fs, r, Exclusive) == 0 && Count(fs, r, Shared) == 0
  }

  /** The checked try-lock helpers grant h: a write lock only when the lock
      has no hold, a read lock when it has no write hold. */
  predicate CanTake(fs: FS, h: Hold) {
    Count(fs, h.lock, Exclusive) == 0 && (h.mode == Shared || Count(fs, h.lock, Shared) == 0)
  }

  function Take(fs: FS, h: Hold): FS {
    fs.(holds := fs.holds + multiset{h})
  }

  /** tryWriteLockDirectories, tryReadLockFiles, VirtualFile.tryWriteLock and
      the like: refuse a lock this thread already writes; then tryLock, which
      for the write lock also fails while read holds exist. */
  function TryLock(fs: FS, r: LockRef, m: Mode): (res: Result<FS>)
    ensures res.Ok? <==> CanTake(fs, Hold(r, m))
    ensures res.Ok? ==> res.value == Take(fs, Hold(r, m))
    ensures res.Err? ==> res.error == Locked
  {
    if Count(fs, r, Exclusive) > 0 then Err(Locked)
    else if m == Exclusive && Count(fs, r, Shared) > 0 then Err(Locked)
    else Ok(Take(fs, Hold(r, m)))
  }

  /** tryLockNameWrite: a bare tryLock on the write lock, reentrant for a
      thread that already writes, refused while only read holds exist. */
  function TryNameWrite(fs: FS, dir: NodeId): (res: Result<FS>)
    ensures res.Ok? <==> Count(fs, NameLock(dir), Exclusive) > 0 || Count(fs, NameLock(dir), Shared) == 0
    ensures res.Ok? ==> res.value == Take(fs, Hold(NameLock(dir), Exclusive))
    ensures res.Err? ==> res.error == Locked
  {
    if Count(fs, NameLock(dir), Exclusive) == 0 && Count(fs, NameLock(dir), Shared) > 0 then Err(Locked)
    else Ok(Take(fs, Hold(NameLock(dir), Exclusive)))
  }

  /** locks.forEach(Lock::unlock): every hold of the list is given back. */
  function Release(fs: FS, hs: seq<Hold>): FS {
    fs.(holds := fs.holds - multiset(hs))
  }

  /** Giving back the holds just taken restores the lock state. */
  lemma ReleaseTaken(fs: FS, hs: seq<Hold>)
    ensures Release(fs.(holds := fs.holds + multiset(hs)), hs) == fs
  {
    assert fs.holds + multiset(hs) - multiset(hs) == fs.holds;
  }

  /** A hold taken and given back leaves the lock state as it was. */
  lemma TakeRelease(fs: FS, h: Hold)
    ensures Release(Take(fs, h), [h]) == fs
  {
    assert multiset([h]) == multiset{h};
    ReleaseTaken(fs, [h]);
  }
}
