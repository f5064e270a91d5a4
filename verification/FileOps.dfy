/** The shared document's parallel collections, on one replica. */
module FileOps {
  import opened Wrappers
  import GlobPaths

  type Path = string

  datatype FileMeta = FileMeta(
    path: Path, language: string, lastModifiedBy: string, lastModifiedAt: int, size: nat)

  /** An entry of the flat tree; only files are ever listed. */
  datatype FileNode = FileNode(name: string, path: Path)

  datatype SoftLock = SoftLock(holder: string, since: int)

  datatype Snapshot = Snapshot(
    files: map<Path, string>,
    meta: map<Path, FileMeta>,
    tree: seq<FileNode>,
    claims: map<Path, string>,
    softLocks: map<Path, SoftLock>)

  const EMPTY := Snapshot(map[], map[], [], map[], map[])

  /** Who does something and when. */
  datatype Stamp = Stamp(who: string, at: int)

  // ---------------------------------------------------------------------
  // Text
  // ---------------------------------------------------------------------

  function Clamp(i: int, max: nat): (r: nat)
    ensures r <= max
  {
    if i < 0 then 0 else if i > max then max else i
  }

  function InsertAt(text: string, index: int, piece: string): string {
    var i := Clamp(index, |text|);
    text[..i] + piece + text[i..]
  }

  function DeleteAt(text: string, index: int, length: int): string {
    var i := Clamp(index, |text|);
    text[..i] + text[i + Clamp(length, |text| - i)..]
  }

  datatype Edit =
    | Insert(index: int, piece: string)
    | Delete(index: int, length: int)
    | Replace(index: int, length: int, piece: string)

  function Edited(text: string, edit: Edit): string {
    match edit
    case Insert(index, piece) => InsertAt(text, index, piece)
    case Delete(index, length) => DeleteAt(text, index, length)
    case Replace(index, length, piece) => InsertAt(DeleteAt(text, index, length), index, piece)
  }

  /** Deleting what was inserted gives the text back, unless the insertion was past the end. */
  lemma DeleteUndoesInsertIff(text: string, index: int, piece: string)
    ensures DeleteAt(InsertAt(text, index, piece), index, |piece|) == text <==> index <= |text| || piece == ""
  {
    var i := Clamp(index, |text|);
    var longer := InsertAt(text, index, piece);
    if index <= |text| {
      assert longer[..i] == text[..i] && longer[i + |piece|..] == text[i..];
    } else if piece == "" {
      assert longer == text;
    } else {
      assert |DeleteAt(longer, index, |piece|)| > |text|;
    }
  }

  // ---------------------------------------------------------------------
  // The operations as functions of the collections
  // ---------------------------------------------------------------------

  function NodeFor(path: Path): FileNode {
    FileNode(GlobPaths.Basename(path), path)
  }

  /** The tree without its first entry for `path`. */
  function Removed(tree: seq<FileNode>, path: Path): seq<FileNode> {
    if tree == [] then []
    else if tree[0].path == path then tree[1..]
    else [tree[0]] + Removed(tree[1..], path)
  }

  /** A claim counts only if it names somebody: the code tests the string for truth. */
  predicate Claimed(claims: map<Path, string>, path: Path) {
    path in claims && claims[path] != ""
  }

  function Created(s: Snapshot, path: Path, content: string, language: string, stamp: Stamp): Option<Snapshot> {
    if path in s.files then None
    else Some(s.(files := s.files[path := content],
                 meta := s.meta[path := FileMeta(path, language, stamp.who, stamp.at, |content|)],
                 tree := s.tree + [NodeFor(path)]))
  }

  function Deleted(s: Snapshot, path: Path): Option<Snapshot> {
    if path !in s.files then None
    else Some(Snapshot(s.files - {path}, s.meta - {path}, Removed(s.tree, path),
                       s.claims - {path}, s.softLocks - {path}))
  }

  function Renamed(s: Snapshot, oldPath: Path, newPath: Path, language: string, stamp: Stamp): Option<Snapshot> {
    if oldPath !in s.files || newPath in s.files then None
    else
      var content := s.files[oldPath];
      var size := if oldPath in s.meta then s.meta[oldPath].size else |content|;
      Some(Snapshot(
        s.files[newPath := content] - {oldPath},
        s.meta[newPath := FileMeta(newPath, language, stamp.who, stamp.at, size)] - {oldPath},
        Removed(s.tree, oldPath) + [NodeFor(newPath)],
        MovedClaims(s.claims, oldPath, newPath),
        s.softLocks - {oldPath}))
  }

  function MovedClaims(claims: map<Path, string>, oldPath: Path, newPath: Path): map<Path, string> {
    if Claimed(claims, oldPath) then claims[newPath := claims[oldPath]] - {oldPath} else claims
  }

  function Touched(s: Snapshot, path: Path, edit: Edit, stamp: Stamp): Option<Snapshot> {
    if path !in s.files then None
    else
      var text := Edited(s.files[path], edit);
      Some(s.(files := s.files[path := text],
              meta := if path in s.meta
                      then s.meta[path := s.meta[path].(
                                  lastModifiedBy := stamp.who, lastModifiedAt := stamp.at, size := |text|)]
                      else s.meta))
  }

  // ---------------------------------------------------------------------
  // Agreement
  // ---------------------------------------------------------------------

  /** The tree lists each of `paths` exactly once, and nothing else. */
  predicate Lists(tree: seq<FileNode>, paths: set<Path>) {
    if tree == [] then paths == {}
    else tree[0].path in paths && Lists(tree[1..], paths - {tree[0].path})
  }

  predicate MetaFits(files: map<Path, string>, meta: map<Path, FileMeta>) {
    files.Keys == meta.Keys &&
    forall path :: path in files ==> meta[path].path == path && meta[path].size == |files[path]|
  }

  predicate Agrees(s: Snapshot) {
    MetaFits(s.files, s.meta) && Lists(s.tree, s.files.Keys)
  }

  /** Every claim that names somebody, and every soft lock, is on an existing file. */
  ghost predicate NoOrphans(s: Snapshot) {
    (forall path :: Claimed(s.claims, path) ==> path in s.files) &&
    (forall path :: path in s.softLocks ==> path in s.files)
  }

  lemma {:induction false} ListsIsExact(tree: seq<FileNode>, paths: set<Path>)
    requires Lists(tree, paths)
    ensures forall path :: path in paths <==> exists k :: 0 <= k < |tree| && tree[k].path == path
    ensures forall j, k :: 0 <= j < k < |tree| ==> tree[j].path != tree[k].path
  {
    if tree != [] {
      var rest := tree[1..];
      ListsIsExact(rest, paths - {tree[0].path});
      assert tree == [tree[0]] + rest;
      forall path | path in paths
        ensures exists k :: 0 <= k < |tree| && tree[k].path == path
      {
        if path in paths - {tree[0].path} {
          var k :| 0 <= k < |rest| && rest[k].path == path;
          assert tree[k + 1].path == path;
        }
      }
      forall k | 0 < k < |tree|
        ensures tree[k].path in paths - {tree[0].path}
      {
        assert rest[k - 1].path == tree[k].path;
      }
    }
  }

  lemma {:induction false} ListsSnoc(tree: seq<FileNode>, paths: set<Path>, node: FileNode)
    requires Lists(tree, paths) && node.path !in paths
    ensures Lists(tree + [node], paths + {node.path})
  {
    var path := node.path;
    var longer := tree + [node];
    if tree == [] {
      assert paths + {path} - {path} == {};
    } else {
      ListsSnoc(tree[1..], paths - {tree[0].path}, node);
      assert longer[1..] == tree[1..] + [node];
      assert paths + {path} - {tree[0].path} == paths - {tree[0].path} + {path};
    }
  }

  lemma {:induction false} ListsRemoved(tree: seq<FileNode>, paths: set<Path>, path: Path)
    requires Lists(tree, paths) && path in paths
    ensures Lists(Removed(tree, path), paths - {path})
  {
    if tree[0].path != path {
      ListsRemoved(tree[1..], paths - {tree[0].path}, path);
      var shorter := Removed(tree, path);
      assert shorter[1..] == Removed(tree[1..], path);
      assert paths - {path} - {tree[0].path} == paths - {tree[0].path} - {path};
    }
  }

  /** Removing what was just appended, from a tree that did not list it, restores the tree. */
  lemma {:induction false} RemovedSnoc(tree: seq<FileNode>, paths: set<Path>, node: FileNode)
    requires Lists(tree, paths) && node.path !in paths
    ensures Removed(tree + [node], node.path) == tree
  {
    var longer := tree + [node];
    if tree == [] {
      assert longer[1..] == [];
    } else {
      assert longer[1..] == tree[1..] + [node];
      RemovedSnoc(tree[1..], paths - {tree[0].path}, node);
    }
  }

  // ---------------------------------------------------------------------
  // Every operation keeps the collections in agreement
  // ---------------------------------------------------------------------

  /** A call, or an outside change to the claims and soft locks. */
  datatype Op =
    | Create(path: Path, content: string, language: string, stamp: Stamp)
    | Remove(path: Path)
    | Rename(oldPath: Path, newPath: Path, language: string, stamp: Stamp)
    | EditText(path: Path, edit: Edit, stamp: Stamp)
    | SetClaim(path: Path, holder: string)
    | SetSoftLock(path: Path, lock: SoftLock)

  /** A call that throws changes nothing: every check comes before the transaction. */
  function Step(s: Snapshot, op: Op): Snapshot {
    var next := match op
      case Create(path, content, language, stamp) => Created(s, path, content, language, stamp)
      case Remove(path) => Deleted(s, path)
      case Rename(oldPath, newPath, language, stamp) => Renamed(s, oldPath, newPath, language, stamp)
      case EditText(path, edit, stamp) => Touched(s, path, edit, stamp)
      case SetClaim(path, holder) => Some(s.(claims := s.claims[path := holder]))
      case SetSoftLock(path, lock) => Some(s.(softLocks := s.softLocks[path := lock]));
    if next.Some? then next.value else s
  }

  function Run(s: Snapshot, ops: seq<Op>): Snapshot {
    if ops == [] then s else Step(Run(s, ops[..|ops| - 1]), ops[|ops| - 1])
  }

  lemma CreateKeeps(s: Snapshot, path: Path, content: string, language: string, stamp: Stamp)
    requires Agrees(s) && path !in s.files
    ensures Agrees(Created(s, path, content, language, stamp).value)
  {
    ListsSnoc(s.tree, s.files.Keys, NodeFor(path));
    assert s.files[path := content].Keys == s.files.Keys + {path};
  }

  lemma DeleteKeeps(s: Snapshot, path: Path)
    requires Agrees(s) && path in s.files
    ensures Agrees(Deleted(s, path).value)
  {
    ListsRemoved(s.tree, s.files.Keys, path);
    assert (s.files - {path}).Keys == s.files.Keys - {path};
  }

  lemma RenameKeeps(s: Snapshot, oldPath: Path, newPath: Path, language: string, stamp: Stamp)
    requires Agrees(s) && oldPath in s.files && newPath !in s.files
    ensures Agrees(Renamed(s, oldPath, newPath, language, stamp).value)
  {
    var paths := s.files.Keys;
    ListsRemoved(s.tree, paths, oldPath);
    ListsSnoc(Removed(s.tree, oldPath), paths - {oldPath}, NodeFor(newPath));
    assert (s.files[newPath := s.files[oldPath]] - {oldPath}).Keys == paths - {oldPath} + {newPath};
  }

  lemma EditKeeps(s: Snapshot, path: Path, edit: Edit, stamp: Stamp)
    requires Agrees(s) && path in s.files
    ensures Agrees(Touched(s, path, edit, stamp).value)
  {
    assert s.files[path := Edited(s.files[path], edit)].Keys == s.files.Keys;
  }

  lemma StepKeepsAgreement(s: Snapshot, op: Op)
    requires Agrees(s)
    ensures Agrees(Step(s, op))
  {
    match op
    case Create(path, content, language, stamp) =>
      if path !in s.files { CreateKeeps(s, path, content, language, stamp); }
    case Remove(path) =>
      if path in s.files { DeleteKeeps(s, path); }
    case Rename(oldPath, newPath, language, stamp) =>
      if oldPath in s.files && newPath !in s.files { RenameKeeps(s, oldPath, newPath, language, stamp); }
    case EditText(path, edit, stamp) =>
      if path in s.files { EditKeeps(s, path, edit, stamp); }
    case _ =>
  }

  lemma {:induction false} RunKeepsAgreement(ops: seq<Op>)
    ensures Agrees(Run(EMPTY, ops))
  {
    if ops != [] {
      RunKeepsAgreement(ops[..|ops| - 1]);
      StepKeepsAgreement(Run(EMPTY, ops[..|ops| - 1]), ops[|ops| - 1]);
    }
  }

  /**
   * After any calls the keys of `files`, the keys of `meta` and the paths in `tree` are the same,
   * no path is listed twice and every recorded size is the length of the text.
   */
  lemma CollectionsAgree(ops: seq<Op>, path: Path)
    ensures var s := Run(EMPTY, ops);
            (path in s.files <==> path in s.meta) &&
            (path in s.files <==> exists k :: 0 <= k < |s.tree| && s.tree[k].path == path) &&
            (forall j, k :: 0 <= j < k < |s.tree| ==> s.tree[j].path != s.tree[k].path) &&
            (path in s.files ==> s.meta[path].size == |s.files[path]|)
  {
    RunKeepsAgreement(ops);
    ListsIsExact(Run(EMPTY, ops).tree, Run(EMPTY, ops).files.Keys);
  }

  // ---------------------------------------------------------------------
  // Claims and soft locks
  // ---------------------------------------------------------------------

  /** An outside change that claims or locks a path only while a file is there. */
  predicate OnLiveFile(s: Snapshot, op: Op) {
    op.SetClaim? || op.SetSoftLock? ==> op.path in s.files
  }

  predicate ClaimsOnLiveFiles(s: Snapshot, ops: seq<Op>) {
    ops == [] ||
    var n := |ops| - 1;
    ClaimsOnLiveFiles(s, ops[..n]) && OnLiveFile(Run(s, ops[..n]), ops[n])
  }

  lemma RenameKeepsNoOrphans(s: Snapshot, oldPath: Path, newPath: Path, language: string, stamp: Stamp)
    requires NoOrphans(s) && oldPath in s.files && newPath !in s.files
    ensures NoOrphans(Renamed(s, oldPath, newPath, language, stamp).value)
  {
    forall path | Claimed(MovedClaims(s.claims, oldPath, newPath), path)
      ensures path in s.files.Keys - {oldPath} + {newPath}
    {
      MovedClaimsIff(s.claims, oldPath, newPath, path);
    }
    assert (s.files[newPath := s.files[oldPath]] - {oldPath}).Keys == s.files.Keys - {oldPath} + {newPath};
  }

  /** Who is claimed after a move: the new path if either was, and every other path as before. */
  lemma MovedClaimsIff(claims: map<Path, string>, oldPath: Path, newPath: Path, path: Path)
    requires oldPath != newPath
    ensures Claimed(MovedClaims(claims, oldPath, newPath), path) <==>
              if path == oldPath then false
              else if path == newPath then Claimed(claims, oldPath) || Claimed(claims, newPath)
              else Claimed(claims, path)
  {
  }

  lemma DeleteKeepsNoOrphans(s: Snapshot, path: Path)
    requires NoOrphans(s) && path in s.files
    ensures NoOrphans(Deleted(s, path).value)
  {
    forall other | Claimed(s.claims - {path}, other)
      ensures other in s.files - {path}
    {
      assert Claimed(s.claims, other);
    }
  }

  lemma StepKeepsNoOrphans(s: Snapshot, op: Op)
    requires NoOrphans(s) && OnLiveFile(s, op)
    ensures NoOrphans(Step(s, op))
  {
    match op
    case Remove(path) =>
      if path in s.files { DeleteKeepsNoOrphans(s, path); }
    case Rename(oldPath, newPath, language, stamp) =>
      if oldPath in s.files && newPath !in s.files { RenameKeepsNoOrphans(s, oldPath, newPath, language, stamp); }
    case SetClaim(path, holder) =>
      SetClaimKeepsNoOrphans(s, path, holder);
    case _ =>
  }

  lemma SetClaimKeepsNoOrphans(s: Snapshot, path: Path, holder: string)
    requires NoOrphans(s) && path in s.files
    ensures NoOrphans(s.(claims := s.claims[path := holder]))
  {
    forall other | Claimed(s.claims[path := holder], other)
      ensures other in s.files
    {
      assert other == path || Claimed(s.claims, other);
    }
  }

  /** If claims and locks are only ever put on existing files, none outlives its file. */
  lemma {:induction false} NoneOutlivesItsFile(s: Snapshot, ops: seq<Op>)
    requires NoOrphans(s) && ClaimsOnLiveFiles(s, ops)
    ensures NoOrphans(Run(s, ops))
  {
    if ops != [] {
      NoneOutlivesItsFile(s, ops[..|ops| - 1]);
      StepKeepsNoOrphans(Run(s, ops[..|ops| - 1]), ops[|ops| - 1]);
    }
  }

  /** What a rename leaves on the old path: no lock, and a claim exactly if it was the empty string. */
  lemma RenameLeavesIff(s: Snapshot, oldPath: Path, newPath: Path, language: string, stamp: Stamp)
    requires Agrees(s) && oldPath in s.files && newPath !in s.files
    ensures var r := Renamed(s, oldPath, newPath, language, stamp).value;
            oldPath !in r.files && oldPath !in r.softLocks &&
            (oldPath in r.claims <==> oldPath in s.claims && s.claims[oldPath] == "") &&
            (Claimed(s.claims, oldPath) ==> newPath in r.claims && r.claims[newPath] == s.claims[oldPath]) &&
            newPath in r.files && r.files[newPath] == s.files[oldPath] &&
            r.meta[newPath].size == |s.files[oldPath]|
  {
    RenameKeeps(s, oldPath, newPath, language, stamp);
  }

  /** Three calls that leave a path claimed with no file on it: an empty claim does not move with its file. */
  lemma EmptyClaimStaysBehind(a: Path, b: Path, text: string, stamp: Stamp, ops: seq<Op>)
    requires a != b && ops == [Create(a, text, text, stamp), SetClaim(a, ""), Rename(a, b, text, stamp)]
    ensures var s := Run(EMPTY, ops);
            a in s.claims && a !in s.files && b in s.files && b !in s.claims
  {
    RunOfThree(EMPTY, ops);
    var mid := Step(Step(EMPTY, ops[0]), ops[1]);
    assert mid.files == map[a := text] && mid.claims == map[a := ""];
  }

  lemma RunOfThree(s: Snapshot, ops: seq<Op>)
    requires |ops| == 3
    ensures Run(s, ops) == Step(Step(Step(s, ops[0]), ops[1]), ops[2])
  {
    RunPrefix(s, ops, 1);
    RunPrefix(s, ops, 2);
    RunPrefix(s, ops, 3);
    assert ops[..0] == [] && ops[..3] == ops;
  }

  lemma RunPrefix(s: Snapshot, ops: seq<Op>, n: nat)
    requires 0 < n <= |ops|
    ensures Run(s, ops[..n]) == Step(Run(s, ops[..n - 1]), ops[n - 1])
  {
    assert ops[..n][..n - 1] == ops[..n - 1];
  }

  // ---------------------------------------------------------------------
  // Calls that undo each other
  // ---------------------------------------------------------------------

  /** Deleting a file just created restores the document, unless the bare path was claimed or locked. */
  lemma DeleteUndoesCreateIff(s: Snapshot, path: Path, content: string, language: string, stamp: Stamp)
    requires Agrees(s) && path !in s.files
    ensures var back := Deleted(Created(s, path, content, language, stamp).value, path);
            back.Some? && (back.value == s <==> path !in s.claims && path !in s.softLocks)
  {
    var mid := Created(s, path, content, language, stamp).value;
    var back := Deleted(mid, path).value;
    RemovedSnoc(s.tree, s.files.Keys, NodeFor(path));
    assert back.files == s.files && back.meta == s.meta && back.tree == s.tree;
    assert path in s.claims ==> back.claims != s.claims;
    assert path in s.softLocks ==> back.softLocks != s.softLocks;
    assert path !in s.claims ==> back.claims == s.claims;
    assert path !in s.softLocks ==> back.softLocks == s.softLocks;
  }

  /** Renaming there and back restores the texts; the claims come back exactly if `newPath` had none that counts. */
  lemma RenameBackIff(
    s: Snapshot, oldPath: Path, newPath: Path, language: string, stamp: Stamp, language': string, stamp': Stamp)
    requires Agrees(s) && oldPath in s.files && newPath !in s.files
    ensures var mid := Renamed(s, oldPath, newPath, language, stamp).value;
            var back := Renamed(mid, newPath, oldPath, language', stamp');
            back.Some? && back.value.files == s.files &&
            back.value.tree == Removed(s.tree, oldPath) + [NodeFor(oldPath)] &&
            (back.value.claims == s.claims <==>
               !Claimed(s.claims, newPath) && (Claimed(s.claims, oldPath) ==> newPath !in s.claims))
  {
    var mid := Renamed(s, oldPath, newPath, language, stamp).value;
    var back := Renamed(mid, newPath, oldPath, language', stamp').value;
    assert back.files == s.files;
    ListsRemoved(s.tree, s.files.Keys, oldPath);
    RemovedSnoc(Removed(s.tree, oldPath), s.files.Keys - {oldPath}, NodeFor(newPath));
    ClaimsBackIff(s.claims, oldPath, newPath);
  }

  lemma ClaimsBackIff(claims: map<Path, string>, oldPath: Path, newPath: Path)
    requires oldPath != newPath
    ensures MovedClaims(MovedClaims(claims, oldPath, newPath), newPath, oldPath) == claims <==>
              !Claimed(claims, newPath) && (Claimed(claims, oldPath) ==> newPath !in claims)
  {
    var mid := MovedClaims(claims, oldPath, newPath);
    var back := MovedClaims(mid, newPath, oldPath);
    if Claimed(claims, oldPath) {
      assert mid[newPath] == claims[oldPath];
      assert back == claims - {newPath};
    } else if Claimed(claims, newPath) {
      assert newPath !in back;
    }
  }

  // ---------------------------------------------------------------------
  // The document
  // ---------------------------------------------------------------------

  class Document {
    const detectLanguage: string -> string
    var files: map<Path, string>
    var fileMeta: map<Path, FileMeta>
    var tree: seq<FileNode>
    var claims: map<Path, string>
    var softLocks: map<Path, SoftLock>

    function View(): Snapshot
      reads this
    {
      Snapshot(files, fileMeta, tree, claims, softLocks)
    }

    constructor (detectLanguage: string -> string)
      ensures View() == EMPTY
    {
      this.detectLanguage := detectLanguage;
      files, fileMeta, tree, claims, softLocks := map[], map[], [], map[], map[];
    }

    /** `ok` says that the call does not throw; the same goes for the calls below. */
    method CreateFile(path: Path, content: string, language: Option<string>, stamp: Stamp) returns (ok: bool)
      requires Agrees(View())
      modifies this
      ensures Agrees(View())
      ensures var spoken := if language.Some? then language.value else detectLanguage(path);
              View() == Step(old(View()), Create(path, content, spoken, stamp))
      ensures ok <==> path !in old(files)
    {
      var spoken := if language.Some? then language.value else detectLanguage(path);
      StepKeepsAgreement(View(), Create(path, content, spoken, stamp));
      if path in files {
        return false;
      }
      files := files[path := content];
      fileMeta := fileMeta[path := FileMeta(path, spoken, stamp.who, stamp.at, |content|)];
      AddToTree(path);
      ok := true;
    }

    method DeleteFile(path: Path) returns (ok: bool)
      requires Agrees(View())
      modifies this
      ensures Agrees(View()) && View() == Step(old(View()), Remove(path))
      ensures ok <==> path in old(files)
    {
      StepKeepsAgreement(View(), Remove(path));
      if path !in files {
        return false;
      }
      files := files - {path};
      fileMeta := fileMeta - {path};
      claims := claims - {path};
      softLocks := softLocks - {path};
      RemoveFromTree(path);
      ok := true;
    }

    method RenameFile(oldPath: Path, newPath: Path, stamp: Stamp) returns (ok: bool)
      requires Agrees(View())
      modifies this
      ensures Agrees(View())
      ensures View() == Step(old(View()), Rename(oldPath, newPath, detectLanguage(newPath), stamp))
      ensures ok <==> oldPath in old(files) && newPath !in old(files)
    {
      StepKeepsAgreement(View(), Rename(oldPath, newPath, detectLanguage(newPath), stamp));
      if oldPath !in files || newPath in files {
        return false;
      }
      var content := files[oldPath];
      files := files[newPath := content];
      var size := if oldPath in fileMeta then fileMeta[oldPath].size else |content|;
      fileMeta := fileMeta[newPath := FileMeta(newPath, detectLanguage(newPath), stamp.who, stamp.at, size)];
      fileMeta := fileMeta - {oldPath};
      MoveClaim(oldPath, newPath);
      files := files - {oldPath};
      softLocks := softLocks - {oldPath};
      RemoveFromTree(oldPath);
      AddToTree(newPath);
      ok := true;
    }

    /** The claims part of `RenameFile`. */
    method MoveClaim(oldPath: Path, newPath: Path)
      modifies this`claims
      ensures claims == MovedClaims(old(claims), oldPath, newPath)
    {
      if oldPath in claims && claims[oldPath] != "" {
        claims := claims[newPath := claims[oldPath]];
        claims := claims - {oldPath};
      }
    }

    method InsertText(path: Path, index: int, text: string, stamp: Stamp) returns (ok: bool)
      requires Agrees(View())
      modifies this
      ensures Agrees(View()) && View() == Step(old(View()), EditText(path, Insert(index, text), stamp))
      ensures ok <==> path in old(files)
    {
      StepKeepsAgreement(View(), EditText(path, Insert(index, text), stamp));
      if path !in files {
        return false;
      }
      files := files[path := InsertAt(files[path], index, text)];
      TouchFileMeta(path, stamp);
      ok := true;
    }

    method DeleteText(path: Path, index: int, length: int, stamp: Stamp) returns (ok: bool)
      requires Agrees(View())
      modifies this
      ensures Agrees(View()) && View() == Step(old(View()), EditText(path, Delete(index, length), stamp))
      ensures ok <==> path in old(files)
    {
      StepKeepsAgreement(View(), EditText(path, Delete(index, length), stamp));
      if path !in files {
        return false;
      }
      files := files[path := DeleteAt(files[path], index, length)];
      TouchFileMeta(path, stamp);
      ok := true;
    }

    method ReplaceText(path: Path, index: int, deleteLength: int, insertContent: string, stamp: Stamp)
      returns (ok: bool)
      requires Agrees(View())
      modifies this
      ensures Agrees(View())
      ensures View() == Step(old(View()), EditText(path, Replace(index, deleteLength, insertContent), stamp))
      ensures ok <==> path in old(files)
    {
      StepKeepsAgreement(View(), EditText(path, Replace(index, deleteLength, insertContent), stamp));
      if path !in files {
        return false;
      }
      files := files[path := DeleteAt(files[path], index, deleteLength)];
      files := files[path := InsertAt(files[path], index, insertContent)];
      TouchFileMeta(path, stamp);
      ok := true;
    }

    method TouchFileMeta(path: Path, stamp: Stamp)
      modifies this`fileMeta
      ensures fileMeta == if path in old(fileMeta)
                          then old(fileMeta)[path := old(fileMeta)[path].(
                                 lastModifiedBy := stamp.who, lastModifiedAt := stamp.at,
                                 size := if path in files then |files[path]| else old(fileMeta)[path].size)]
                          else old(fileMeta)
    {
      if path in fileMeta {
        var existing := fileMeta[path];
        var size := if path in files then |files[path]| else existing.size;
        fileMeta := fileMeta[path := existing.(
          lastModifiedBy := stamp.who, lastModifiedAt := stamp.at, size := size)];
      }
    }

    method AddToTree(path: Path)
      modifies this`tree
      ensures tree == old(tree) + [NodeFor(path)]
    {
      tree := tree + [FileNode(GlobPaths.Basename(path), path)];
    }

    method RemoveFromTree(path: Path)
      modifies this`tree
      ensures tree == Removed(old(tree), path)
    {
      for i := 0 to |tree|
        invariant tree == old(tree)
        invariant Removed(tree, path) == tree[..i] + Removed(tree[i..], path)
      {
        if tree[i].path == path {
          tree := tree[..i] + tree[i + 1..];
          return;
        }
        assert tree[..i + 1] == tree[..i] + [tree[i]];
      }
    }
  }
}
