/** The nested directory tree built from the document's flat list of files. */
module NestedTree {
  import opened FileOps

  datatype Kind = File | Directory

  datatype TreeNode = TreeNode(name: string, kind: Kind, path: string, children: seq<TreeNode>)

  const ROOT := TreeNode("/", Directory, "/", [])

  // ---------------------------------------------------------------------
  // Paths
  // ---------------------------------------------------------------------

  /** The non-empty pieces between slashes of `path + tail`, where `tail` has no slash. */
  function Pieces(path: string, tail: string): seq<string> {
    var last := if tail == "" then [] else [tail];
    if path == "" then last
    else
      var n := |path| - 1;
      if path[n] == '/' then Pieces(path[..n], "") + last else Pieces(path[..n], [path[n]] + tail)
  }

  function Parts(path: string): seq<string> {
    Pieces(path, "")
  }

  function Join(parts: seq<string>): string {
    if parts == [] then ""
    else if |parts| == 1 then parts[0]
    else
      var n := |parts| - 1;
      Join(parts[..n]) + "/" + parts[n]
  }

  function DirPath(parts: seq<string>): string {
    "/" + Join(parts)
  }

  /** All but the last of the pieces of a path: the directories a file lies in. */
  function Dirs(path: string): seq<string> {
    var parts := Parts(path);
    if parts == [] then [] else parts[..|parts| - 1]
  }

  /** A piece of a path: not empty and without a slash. */
  predicate Clean(piece: string) {
    piece != "" && '/' !in piece
  }

  predicate AllClean(parts: seq<string>) {
    forall k :: 0 <= k < |parts| ==> Clean(parts[k])
  }

  lemma {:induction false} PiecesAreClean(path: string, tail: string)
    requires '/' !in tail
    ensures AllClean(Pieces(path, tail))
  {
    if path != "" {
      var n := |path| - 1;
      if path[n] == '/' {
        PiecesAreClean(path[..n], "");
      } else {
        PiecesAreClean(path[..n], [path[n]] + tail);
      }
    }
  }

  lemma {:induction false} PiecesOfTail(path: string, s: string, tail: string)
    requires '/' !in s
    ensures Pieces(path + s, tail) == Pieces(path, s + tail)
  {
    if s == "" {
      assert path + s == path && s + tail == tail;
    } else {
      var n := |s| - 1;
      assert (path + s)[..|path + s| - 1] == path + s[..n];
      assert s[..n] + ([s[n]] + tail) == s + tail;
      PiecesOfTail(path, s[..n], [s[n]] + tail);
    }
  }

  /** A slash and a clean piece at the end of a path add exactly that piece. */
  lemma PiecesSnoc(path: string, s: string)
    requires Clean(s)
    ensures Parts(path + "/" + s) == Parts(path) + [s]
  {
    var p := path + "/";
    PiecesOfTail(p, s, "");
    assert s + "" == s && p[..|p| - 1] == path;
  }

  /** Reading back a directory path gives the pieces it was joined from. */
  lemma {:induction false} PartsOfDirPath(parts: seq<string>)
    requires parts != [] && AllClean(parts)
    ensures Parts(DirPath(parts)) == parts
  {
    var n := |parts| - 1;
    var front := parts[..n];
    assert parts == front + [parts[n]];
    if n == 0 {
      assert DirPath(parts) == "" + "/" + parts[0];
      PiecesSnoc("", parts[0]);
    } else {
      PartsOfDirPath(front);
      PiecesSnoc(DirPath(front), parts[n]);
      assert DirPath(parts) == DirPath(front) + "/" + parts[n];
    }
  }

  lemma DirsAreClean(path: string)
    ensures AllClean(Parts(path)) && AllClean(Dirs(path))
  {
    PiecesAreClean(path, "");
  }

  // ---------------------------------------------------------------------
  // Building
  // ---------------------------------------------------------------------

  /** The position of the first child with the given path, or the number of children. */
  function Find(children: seq<TreeNode>, path: string): (i: nat)
    ensures i <= |children| && (i < |children| ==> children[i].path == path)
  {
    if children == [] then 0
    else if children[0].path == path then 0
    else 1 + Find(children[1..], path)
  }

  function Leaf(file: FileNode): TreeNode {
    TreeNode(file.name, File, file.path, [])
  }

  /** Files `file` below `node`, which is `above`, creating the directories `dirs` where missing. */
  function Insert(node: TreeNode, above: seq<string>, dirs: seq<string>, file: FileNode): TreeNode
    decreases |dirs|
  {
    if dirs == [] then node.(children := node.children + [Leaf(file)])
    else
      var below := above + [dirs[0]];
      var dirPath := DirPath(below);
      var i := Find(node.children, dirPath);
      if i == |node.children| then
        var child := TreeNode(dirs[0], Directory, dirPath, []);
        node.(children := node.children + [Insert(child, below, dirs[1..], file)])
      else
        node.(children := node.children[i := Insert(node.children[i], below, dirs[1..], file)])
  }

  function Build(flat: seq<FileNode>): TreeNode {
    if flat == [] then ROOT
    else
      Add(Build(flat[..|flat| - 1]), flat[|flat| - 1])
  }

  /** Files one more flat node below the root. */
  function Add(root: TreeNode, file: FileNode): TreeNode {
    Insert(root, [], Dirs(file.path), file)
  }

  method BuildNestedTree(flat: seq<FileNode>) returns (root: TreeNode)
    ensures root == Build(flat)
  {
    root := ROOT;
    for i := 0 to |flat|
      invariant root == Build(flat[..i])
    {
      assert flat[..i + 1][..i] == flat[..i];
      root := Add(root, flat[i]);
    }
    assert flat[..|flat|] == flat;
  }

  // ---------------------------------------------------------------------
  // Conservation
  // ---------------------------------------------------------------------

  /** The files of a tree, whatever they are filed under. */
  function FilesOf(node: TreeNode): multiset<FileNode> {
    (if node.kind == File then multiset{FileNode(node.name, node.path)} else multiset{}) +
    FilesBelow(node.children)
  }

  function FilesBelow(children: seq<TreeNode>): multiset<FileNode> {
    if children == [] then multiset{}
    else FilesBelow(children[..|children| - 1]) + FilesOf(children[|children| - 1])
  }

  lemma FilesBelowSnoc(children: seq<TreeNode>, child: TreeNode)
    ensures FilesBelow(children + [child]) == FilesBelow(children) + FilesOf(child)
  {
    assert (children + [child])[..|children|] == children;
  }

  lemma UpdateFront(children: seq<TreeNode>, i: nat, child: TreeNode)
    requires i < |children|
    ensures var front, last := children[..|children| - 1], children[|children| - 1];
            children[i := child] == if i == |front| then front + [child] else front[i := child] + [last]
  {
  }

  lemma {:induction false} FilesBelowUpdate(children: seq<TreeNode>, i: nat, child: TreeNode, more: multiset<FileNode>)
    requires i < |children| && FilesOf(child) == FilesOf(children[i]) + more
    ensures FilesBelow(children[i := child]) == FilesBelow(children) + more
  {
    var front, last := children[..|children| - 1], children[|children| - 1];
    UpdateFront(children, i, child);
    if i == |front| {
      FilesBelowSnoc(front, child);
    } else {
      FilesBelowUpdate(front, i, child, more);
      FilesBelowSnoc(front[i := child], last);
    }
  }

  lemma {:induction false} InsertAddsOneFile(node: TreeNode, above: seq<string>, dirs: seq<string>, file: FileNode)
    ensures FilesOf(Insert(node, above, dirs, file)) == FilesOf(node) + multiset{file}
    decreases |dirs|
  {
    if dirs == [] {
      FilesBelowSnoc(node.children, Leaf(file));
      assert FilesOf(Leaf(file)) == multiset{file};
    } else {
      var below := above + [dirs[0]];
      var i := Find(node.children, DirPath(below));
      if i == |node.children| {
        var child := TreeNode(dirs[0], Directory, DirPath(below), []);
        InsertAddsOneFile(child, below, dirs[1..], file);
        FilesBelowSnoc(node.children, Insert(child, below, dirs[1..], file));
      } else {
        InsertAddsOneFile(node.children[i], below, dirs[1..], file);
        FilesBelowUpdate(node.children, i, Insert(node.children[i], below, dirs[1..], file), multiset{file});
      }
    }
  }

  lemma AddAddsOneFile(root: TreeNode, file: FileNode)
    ensures FilesOf(Add(root, file)) == FilesOf(root) + multiset{file}
  {
    InsertAddsOneFile(root, [], Dirs(file.path), file);
  }

  /** The files of the nested tree are exactly the flat nodes, as often as they are listed. */
  lemma {:induction false} FilesAreConserved(flat: seq<FileNode>)
    ensures FilesOf(Build(flat)) == multiset(flat)
  {
    if flat != [] {
      FilesAreConserved(flat[..|flat| - 1]);
      AddAddsOneFile(Build(flat[..|flat| - 1]), flat[|flat| - 1]);
      CountLast(flat);
    }
  }

  lemma CountLast(flat: seq<FileNode>)
    requires flat != []
    ensures multiset(flat) == multiset(flat[..|flat| - 1]) + multiset{flat[|flat| - 1]}
  {
    assert flat == flat[..|flat| - 1] + [flat[|flat| - 1]];
  }

  // ---------------------------------------------------------------------
  // Placement
  // ---------------------------------------------------------------------

  predicate DistinctDirectories(children: seq<TreeNode>) {
    forall j, k :: 0 <= j < k < |children| && children[j].kind == Directory && children[k].kind == Directory ==>
      children[j].path != children[k].path
  }

  /** A node below `above` carries a path whose leading pieces are `above`. */
  predicate FitsUnder(node: TreeNode, above: seq<string>) {
    Dirs(node.path) == above &&
    (node.kind == Directory ==> node.path == DirPath(above + [node.name]))
  }

  /** Everything below `node`, which is the directory `above`, lies under the chain its path names. */
  predicate Placed(node: TreeNode, above: seq<string>) {
    DistinctDirectories(node.children) &&
    forall k :: 0 <= k < |node.children| ==>
      FitsUnder(node.children[k], above) && Placed(node.children[k], Parts(node.children[k].path))
  }

  lemma {:induction false} NoneHasPath(children: seq<TreeNode>, path: string, k: nat)
    requires Find(children, path) == |children| && k < |children|
    ensures children[k].path != path
  {
    if k > 0 {
      NoneHasPath(children[1..], path, k - 1);
    }
  }

  lemma AppendKeepsPlaced(node: TreeNode, above: seq<string>, child: TreeNode)
    requires Placed(node, above) && FitsUnder(child, above) && Placed(child, Parts(child.path))
    requires child.kind == File || Find(node.children, child.path) == |node.children|
    ensures Placed(node.(children := node.children + [child]), above)
  {
    var longer := node.children + [child];
    forall k | 0 <= k < |node.children|
      ensures longer[k] == node.children[k]
      ensures child.kind == Directory ==> longer[k].path != child.path
    {
      if child.kind == Directory {
        NoneHasPath(node.children, child.path, k);
      }
    }
  }

  lemma UpdateKeepsPlaced(node: TreeNode, above: seq<string>, i: nat, child: TreeNode)
    requires Placed(node, above) && i < |node.children|
    requires var was := node.children[i];
             child.name == was.name && child.kind == was.kind && child.path == was.path
    requires Placed(child, Parts(child.path))
    ensures Placed(node.(children := node.children[i := child]), above)
  {
    var updated := node.children[i := child];
    assert forall k :: 0 <= k < |updated| && k != i ==> updated[k] == node.children[k];
  }

  lemma {:induction false} InsertKeepsPlaced(node: TreeNode, above: seq<string>, dirs: seq<string>, file: FileNode)
    requires Placed(node, above) && AllClean(above) && AllClean(dirs)
    requires Dirs(file.path) == above + dirs
    ensures Placed(Insert(node, above, dirs, file), above)
    ensures var r := Insert(node, above, dirs, file);
            r.name == node.name && r.kind == node.kind && r.path == node.path
    decreases |dirs|
  {
    if dirs == [] {
      assert above + dirs == above;
      assert Placed(Leaf(file), Parts(file.path));
      AppendKeepsPlaced(node, above, Leaf(file));
    } else {
      var below := above + [dirs[0]];
      var rest := dirs[1..];
      assert below + rest == above + dirs;
      PartsOfDirPath(below);
      var i := Find(node.children, DirPath(below));
      if i == |node.children| {
        var child := TreeNode(dirs[0], Directory, DirPath(below), []);
        InsertKeepsPlaced(child, below, rest, file);
        assert FitsUnder(Insert(child, below, rest, file), above);
        AppendKeepsPlaced(node, above, Insert(child, below, rest, file));
      } else {
        InsertKeepsPlaced(node.children[i], below, rest, file);
        UpdateKeepsPlaced(node, above, i, Insert(node.children[i], below, rest, file));
      }
    }
  }

  /**
   * Whatever the flat list holds, every node of the nested tree lies under the chain of directories
   * its own path names, and no two sibling directories have the same path.
   */
  lemma {:induction false} EverythingIsPlaced(flat: seq<FileNode>)
    ensures Placed(Build(flat), []) && Build(flat).kind == Directory
  {
    if flat != [] {
      var n := |flat| - 1;
      EverythingIsPlaced(flat[..n]);
      AddKeepsPlaced(Build(flat[..n]), flat[n]);
    }
  }

  lemma AddKeepsPlaced(root: TreeNode, file: FileNode)
    requires Placed(root, [])
    ensures Placed(Add(root, file), []) && Add(root, file).kind == root.kind
  {
    var dirs := Dirs(file.path);
    DirsAreClean(file.path);
    assert [] + dirs == dirs;
    InsertKeepsPlaced(root, [], dirs, file);
  }

  // ---------------------------------------------------------------------
  // Files as leaves
  // ---------------------------------------------------------------------

  /** No file has children. */
  predicate FilesAreLeaves(node: TreeNode) {
    (node.kind == File ==> node.children == []) &&
    forall k :: 0 <= k < |node.children| ==> FilesAreLeaves(node.children[k])
  }

  /** `path` is one of the directory paths created for a file in `dirs`, from depth `from` on. */
  predicate IsDirPath(path: string, dirs: seq<string>, from: nat) {
    exists k :: from < k <= |dirs| && path == DirPath(dirs[..k])
  }

  /** Whether `path` is itself a directory of the other path. */
  predicate IsDirectoryOf(path: string, other: string) {
    IsDirPath(path, Dirs(other), 0)
  }

  // ---------------------------------------------------------------------
  // What a path leads to
  // ---------------------------------------------------------------------

  /** What comes first at a path: a file, a directory, or nothing so far. */
  datatype Found = Nothing | FileFound | DirFound

  function AsFound(kind: Kind): Found {
    if kind == File then FileFound else DirFound
  }

  /** What the chain `dirs` leads to from `node`, which is `above`, taking the first match at each level. */
  function Look(node: TreeNode, above: seq<string>, dirs: seq<string>): Found
    requires dirs != []
    decreases |dirs|
  {
    var below := above + [dirs[0]];
    var i := Find(node.children, DirPath(below));
    if i == |node.children| then Nothing
    else if |dirs| == 1 then AsFound(node.children[i].kind)
    else Look(node.children[i], below, dirs[1..])
  }

  /** Whether filing something under `dirs` goes through a file. */
  predicate Hits(node: TreeNode, above: seq<string>, dirs: seq<string>)
    decreases |dirs|
  {
    dirs != [] &&
    var below := above + [dirs[0]];
    var i := Find(node.children, DirPath(below));
    i < |node.children| &&
    (node.children[i].kind == File || Hits(node.children[i], below, dirs[1..]))
  }

  lemma InsertKeepsNode(node: TreeNode, above: seq<string>, dirs: seq<string>, file: FileNode)
    ensures var r := Insert(node, above, dirs, file);
            r.children != [] && r.path == node.path && r.kind == node.kind
  {
  }

  /** A directory chain filed into an empty directory goes through no file. */
  lemma EmptyHasLeaves(node: TreeNode, above: seq<string>, dirs: seq<string>)
    requires node.children == []
    ensures !Hits(node, above, dirs) && (dirs != [] ==> Look(node, above, dirs) == Nothing)
  {
  }

  lemma UpdatedLeavesIff(node: TreeNode, i: nat, child: TreeNode)
    requires node.kind == Directory && i < |node.children|
    requires forall k :: 0 <= k < |node.children| && k != i ==> FilesAreLeaves(node.children[k])
    ensures FilesAreLeaves(node.(children := node.children[i := child])) <==> FilesAreLeaves(child)
  {
    var updated := node.(children := node.children[i := child]);
    assert updated.children[i] == child;
    assert forall k :: 0 <= k < |node.children| && k != i ==> updated.children[k] == node.children[k];
  }

  lemma UpdateKeepsOthers(node: TreeNode, i: nat, child: TreeNode)
    requires i < |node.children| && FilesAreLeaves(node.(children := node.children[i := child]))
    ensures forall k :: 0 <= k < |node.children| && k != i ==> FilesAreLeaves(node.children[k])
  {
    var updated := node.(children := node.children[i := child]);
    forall k | 0 <= k < |node.children| && k != i
      ensures FilesAreLeaves(node.children[k])
    {
      assert updated.children[k] == node.children[k];
    }
  }

  lemma AppendedLeavesIff(node: TreeNode, child: TreeNode)
    requires node.kind == Directory
    ensures FilesAreLeaves(node.(children := node.children + [child])) <==>
              FilesAreLeaves(node) && FilesAreLeaves(child)
  {
    var longer := node.(children := node.children + [child]);
    assert longer.children[|node.children|] == child;
    assert forall k :: 0 <= k < |node.children| ==> longer.children[k] == node.children[k];
  }

  /** Filing one more node leaves every file a leaf exactly if all were and it goes through none. */
  lemma {:induction false} InsertLeavesIff(node: TreeNode, above: seq<string>, dirs: seq<string>, file: FileNode)
    requires node.kind == Directory
    ensures FilesAreLeaves(Insert(node, above, dirs, file)) <==> FilesAreLeaves(node) && !Hits(node, above, dirs)
    decreases |dirs|, 0
  {
    if dirs == [] {
      AppendedLeavesIff(node, Leaf(file));
    } else {
      var below := above + [dirs[0]];
      var rest := dirs[1..];
      var i := Find(node.children, DirPath(below));
      if i == |node.children| {
        var child := TreeNode(dirs[0], Directory, DirPath(below), []);
        EmptyHasLeaves(child, below, rest);
        InsertLeavesIff(child, below, rest, file);
        AppendedLeavesIff(node, Insert(child, below, rest, file));
      } else {
        FoundLeavesIff(node, i, below, rest, file);
      }
    }
  }

  lemma FoundLeavesIff(node: TreeNode, i: nat, below: seq<string>, rest: seq<string>, file: FileNode)
    requires node.kind == Directory && i < |node.children|
    ensures var child := node.children[i];
            FilesAreLeaves(node.(children := node.children[i := Insert(child, below, rest, file)])) <==>
              FilesAreLeaves(node) && child.kind == Directory && !Hits(child, below, rest)
    decreases |rest|, 1
  {
    var child := node.children[i];
    var filed := Insert(child, below, rest, file);
    InsertKeepsNode(child, below, rest, file);
    if FilesAreLeaves(node.(children := node.children[i := filed])) {
      UpdateKeepsOthers(node, i, filed);
      UpdatedLeavesIff(node, i, filed);
    } else if FilesAreLeaves(node) {
      UpdatedLeavesIff(node, i, filed);
    }
    if child.kind == Directory {
      InsertLeavesIff(child, below, rest, file);
    }
  }

  /** Going through a file is finding a file first along some part of the chain. */
  lemma {:induction false} HitsIff(node: TreeNode, above: seq<string>, dirs: seq<string>)
    requires FilesAreLeaves(node)
    ensures Hits(node, above, dirs) <==>
              exists k :: 0 < k <= |dirs| && Look(node, above, dirs[..k]) == FileFound
    decreases |dirs|
  {
    if dirs != [] {
      var below := above + [dirs[0]];
      var rest := dirs[1..];
      var i := Find(node.children, DirPath(below));
      assert dirs[..1] == [dirs[0]];
      if i < |node.children| {
        var child := node.children[i];
        HitsIff(child, below, rest);
        forall k | 0 < k < |dirs|
          ensures Look(node, above, dirs[..k + 1]) == Look(child, below, rest[..k])
        {
          assert dirs[..k + 1][1..] == rest[..k];
        }
        if child.kind == File {
          assert Look(node, above, dirs[..1]) == FileFound;
        } else {
          if k :| 0 < k <= |rest| && Look(child, below, rest[..k]) == FileFound {
            assert Look(node, above, dirs[..k + 1]) == FileFound;
          }
          if k :| 0 < k <= |dirs| && Look(node, above, dirs[..k]) == FileFound {
            assert k > 1 && Look(child, below, rest[..k - 1]) == FileFound;
          }
        }
      } else {
        forall k | 0 < k <= |dirs|
          ensures Look(node, above, dirs[..k]) == Nothing
        {
        }
      }
    }
  }

  // ---------------------------------------------------------------------
  // Which of the files become leaves
  // ---------------------------------------------------------------------

  predicate IsPrefix(c: seq<string>, dirs: seq<string>) {
    |c| <= |dirs| && dirs[..|c|] == c
  }

  /** What one flat node puts at the chain `c`: a directory on its way, itself, or nothing. */
  function Puts(file: FileNode, c: seq<string>): Found {
    if IsPrefix(c, Dirs(file.path)) then DirFound
    else if file.path == DirPath(c) then FileFound
    else Nothing
  }

  /** What the flat list puts there first. */
  function First(flat: seq<FileNode>, c: seq<string>): Found {
    if flat == [] then Nothing
    else
      var earlier := First(flat[..|flat| - 1], c);
      if earlier != Nothing then earlier else Puts(flat[|flat| - 1], c)
  }

  lemma DirPathInjective(c: seq<string>, d: seq<string>)
    requires c != [] && d != [] && AllClean(c) && AllClean(d) && DirPath(c) == DirPath(d)
    ensures c == d
  {
    PartsOfDirPath(c);
    PartsOfDirPath(d);
  }

  lemma DirsOfDirPath(above: seq<string>, c: seq<string>)
    requires c != [] && AllClean(above) && AllClean(c)
    ensures Dirs(DirPath(above + c)) == above + c[..|c| - 1]
  {
    assert AllClean(above + c);
    PartsOfDirPath(above + c);
    assert (above + c)[..|above + c| - 1] == above + c[..|c| - 1];
  }

  /** Whether `file`, filed under `above + dirs`, comes to lie at `above + c`. */
  function PutsBelow(file: FileNode, above: seq<string>, dirs: seq<string>, c: seq<string>): Found {
    if IsPrefix(c, dirs) then DirFound
    else if file.path == DirPath(above + c) then FileFound
    else Nothing
  }

  lemma FindAfterAppend(children: seq<TreeNode>, child: TreeNode, path: string)
    ensures Find(children + [child], path) ==
              if Find(children, path) < |children| then Find(children, path)
              else if child.path == path then |children| else |children| + 1
  {
    if children != [] {
      assert (children + [child])[1..] == children[1..] + [child];
      if children[0].path != path {
        FindAfterAppend(children[1..], child, path);
      }
    } else {
      assert [child][1..] == [];
    }
  }

  lemma {:induction false} FindAfterUpdate(children: seq<TreeNode>, i: nat, child: TreeNode, path: string)
    requires i < |children| && child.path == children[i].path
    ensures Find(children[i := child], path) == Find(children, path)
  {
    if children[0].path != path {
      if i == 0 {
        assert children[i := child][1..] == children[1..];
      } else {
        assert children[i := child][1..] == children[1..][i - 1 := child];
        FindAfterUpdate(children[1..], i - 1, child, path);
      }
    }
  }

  /** A file cannot lie at a chain that its own directories do not lead to. */
  lemma PutsNothing(file: FileNode, above: seq<string>, dirs: seq<string>, c: seq<string>)
    requires c != [] && AllClean(above) && AllClean(c) && Dirs(file.path) == above + dirs
    requires dirs != c[..|c| - 1]
    ensures file.path != DirPath(above + c)
  {
    DirsOfDirPath(above, c);
    assert (above + dirs)[|above|..] == dirs;
    assert (above + c[..|c| - 1])[|above|..] == c[..|c| - 1];
  }

  lemma InsertLookHere(node: TreeNode, above: seq<string>, file: FileNode, c: seq<string>)
    requires c != [] && AllClean(above) && AllClean(c) && Dirs(file.path) == above
    ensures Look(node.(children := node.children + [Leaf(file)]), above, c) ==
              if Look(node, above, c) != Nothing then Look(node, above, c) else PutsBelow(file, above, [], c)
  {
    var below := above + [c[0]];
    FindAfterAppend(node.children, Leaf(file), DirPath(below));
    if |c| == 1 {
      assert c == [c[0]];
    } else {
      assert above + [] == above;
      PutsNothing(file, above, [], c);
      EmptyHasLeaves(Leaf(file), below, c[1..]);
    }
  }

  lemma StartsOtherwise(c: seq<string>, dirs: seq<string>)
    requires c != [] && dirs != [] && c[0] != dirs[0]
    ensures !IsPrefix(c, dirs)
  {
    assert |c| <= |dirs| ==> dirs[..|c|][0] == dirs[0];
  }

  /** The chain leads elsewhere than to where the file goes. */
  lemma InsertLookElsewhere(
    node: TreeNode, above: seq<string>, dirs: seq<string>, file: FileNode, c: seq<string>)
    requires c != [] && dirs != [] && c[0] != dirs[0]
    requires AllClean(above) && AllClean(dirs) && AllClean(c)
    requires Dirs(file.path) == above + dirs
    ensures Look(Insert(node, above, dirs, file), above, c) == Look(node, above, c)
    ensures PutsBelow(file, above, dirs, c) == Nothing
  {
    var path, pathE := DirPath(above + [c[0]]), DirPath(above + [dirs[0]]);
    assert (above + [c[0]])[|above|] != (above + [dirs[0]])[|above|];
    if path == pathE {
      DirPathInjective(above + [c[0]], above + [dirs[0]]);
    }
    assert |c| > 1 ==> c[..|c| - 1][0] == c[0];
    PutsNothing(file, above, dirs, c);
    StartsOtherwise(c, dirs);
    var below := above + [dirs[0]];
    var i := Find(node.children, pathE);
    if i == |node.children| {
      var child := TreeNode(dirs[0], Directory, pathE, []);
      InsertKeepsNode(child, below, dirs[1..], file);
      FindAfterAppend(node.children, Insert(child, below, dirs[1..], file), path);
    } else {
      InsertKeepsNode(node.children[i], below, dirs[1..], file);
      FindAfterUpdate(node.children, i, Insert(node.children[i], below, dirs[1..], file), path);
    }
  }

  lemma PutsBelowTail(file: FileNode, above: seq<string>, dirs: seq<string>, c: seq<string>)
    requires |c| > 1 && dirs != [] && c[0] == dirs[0]
    ensures PutsBelow(file, above, dirs, c) == PutsBelow(file, above + [dirs[0]], dirs[1..], c[1..])
  {
    assert above + [dirs[0]] + c[1..] == above + c;
    if IsPrefix(c, dirs) {
      assert dirs[1..][..|c| - 1] == dirs[..|c|][1..] == c[1..];
    }
    if IsPrefix(c[1..], dirs[1..]) {
      assert dirs[..|c|] == [dirs[0]] + dirs[1..][..|c| - 1] == c;
    }
  }

  /** Filing a node that goes through no file changes what a chain leads to only where nothing was. */
  lemma {:induction false} InsertLook(
    node: TreeNode, above: seq<string>, dirs: seq<string>, file: FileNode, c: seq<string>)
    requires c != [] && AllClean(above) && AllClean(dirs) && AllClean(c)
    requires Dirs(file.path) == above + dirs && !Hits(node, above, dirs)
    ensures Look(Insert(node, above, dirs, file), above, c) ==
              if Look(node, above, c) != Nothing then Look(node, above, c) else PutsBelow(file, above, dirs, c)
    decreases |dirs|
  {
    if dirs == [] {
      assert above + [] == above;
      InsertLookHere(node, above, file, c);
    } else if c[0] != dirs[0] {
      InsertLookElsewhere(node, above, dirs, file, c);
    } else {
      var below := above + [dirs[0]];
      var rest := dirs[1..];
      var i := Find(node.children, DirPath(below));
      var found := i < |node.children|;
      var child := if found then node.children[i] else TreeNode(dirs[0], Directory, DirPath(below), []);
      var filed := Insert(child, below, rest, file);
      InsertKeepsNode(child, below, rest, file);
      if found {
        FindAfterUpdate(node.children, i, filed, DirPath(below));
      } else {
        EmptyHasLeaves(child, below, rest);
        FindAfterAppend(node.children, filed, DirPath(below));
      }
      if |c| > 1 {
        assert below + rest == above + dirs;
        InsertLook(child, below, rest, file, c[1..]);
        PutsBelowTail(file, above, dirs, c);
        if !found {
          EmptyHasLeaves(child, below, c[1..]);
        }
      } else {
        assert dirs[..1] == [dirs[0]] == c;
      }
    }
  }

  /** As long as every file is a leaf, a chain leads to what the flat list puts there first. */
  lemma {:induction false} LookIsFirst(flat: seq<FileNode>, c: seq<string>)
    requires FilesAreLeaves(Build(flat)) && c != [] && AllClean(c)
    ensures Look(Build(flat), [], c) == First(flat, c)
  {
    if flat == [] {
      EmptyHasLeaves(ROOT, [], c);
    } else {
      var front, file := flat[..|flat| - 1], flat[|flat| - 1];
      var dirs := Dirs(file.path);
      EverythingIsPlaced(front);
      InsertLeavesIff(Build(front), [], dirs, file);
      LookIsFirst(front, c);
      DirsAreClean(file.path);
      assert [] + dirs == dirs && [] + c == c;
      InsertLook(Build(front), [], dirs, file, c);
    }
  }

  lemma {:induction false} NothingFirst(flat: seq<FileNode>, c: seq<string>, k: nat)
    requires First(flat, c) == Nothing && k < |flat|
    ensures Puts(flat[k], c) == Nothing
  {
    if k < |flat| - 1 {
      NothingFirst(flat[..|flat| - 1], c, k);
    }
  }

  lemma {:induction false} FirstAt(flat: seq<FileNode>, c: seq<string>) returns (k: nat)
    requires First(flat, c) != Nothing
    ensures k < |flat| && Puts(flat[k], c) == First(flat, c)
    ensures forall j :: 0 <= j < k ==> Puts(flat[j], c) == Nothing
  {
    var n := |flat| - 1;
    if First(flat[..n], c) != Nothing {
      k := FirstAt(flat[..n], c);
      assert forall j :: 0 <= j < k ==> Puts(flat[..n][j], c) == Puts(flat[j], c);
    } else {
      k := n;
      forall j | 0 <= j < n
        ensures Puts(flat[j], c) == Nothing
      {
        NothingFirst(flat[..n], c, j);
      }
    }
  }

  /** The file at `i` is listed before anything makes its path, the chain `c`, a directory. */
  ghost predicate FileComesFirst(flat: seq<FileNode>, c: seq<string>, i: nat)
    requires i < |flat|
  {
    flat[i].path == DirPath(c) && forall k :: 0 <= k < i ==> !IsPrefix(c, Dirs(flat[k].path))
  }

  lemma FileFirstIff(flat: seq<FileNode>, c: seq<string>)
    requires c != [] && AllClean(c)
    ensures First(flat, c) == FileFound <==> exists i :: 0 <= i < |flat| && FileComesFirst(flat, c, i)
  {
    if First(flat, c) == FileFound {
      var k := FirstAt(flat, c);
      assert FileComesFirst(flat, c, k);
    }
    if i :| 0 <= i < |flat| && FileComesFirst(flat, c, i) {
      FileIsFound(flat, c, i);
    }
  }

  /** A file at the path of `c` does not itself lie below `c`. */
  lemma NotBelowItself(c: seq<string>, path: string)
    requires c != [] && AllClean(c) && path == DirPath(c)
    ensures !IsPrefix(c, Dirs(path))
  {
    DirsOfDirPath([], c);
    assert [] + c == c;
  }

  lemma FileIsFound(flat: seq<FileNode>, c: seq<string>, i: nat)
    requires c != [] && AllClean(c) && i < |flat| && FileComesFirst(flat, c, i)
    ensures First(flat, c) == FileFound
  {
    NotBelowItself(c, flat[i].path);
    assert Puts(flat[i], c) == FileFound;
    if First(flat, c) == Nothing {
      NothingFirst(flat, c, i);
    } else {
      var k := FirstAt(flat, c);
      assert k <= i;
      assert k < i ==> !IsPrefix(c, Dirs(flat[k].path));
    }
  }

  lemma IsDirectoryIff(c: seq<string>, other: string)
    requires c != [] && AllClean(c)
    ensures IsDirectoryOf(DirPath(c), other) <==> IsPrefix(c, Dirs(other))
  {
    var dirs := Dirs(other);
    DirsAreClean(other);
    if IsDirectoryOf(DirPath(c), other) {
      var k :| 0 < k <= |dirs| && DirPath(c) == DirPath(dirs[..k]);
      DirPathInjective(c, dirs[..k]);
    }
  }

  /** Before the file at `i` another one was listed that lies in a directory of the same path. */
  ghost predicate Preceded(flat: seq<FileNode>, i: nat)
    requires i < |flat|
  {
    exists k :: 0 <= k < i && IsDirectoryOf(flat[i].path, flat[k].path)
  }

  /** Every file whose path some file of the rest lies under is so preceded. */
  ghost predicate FineFor(flat: seq<FileNode>, other: string) {
    forall i :: 0 <= i < |flat| && IsDirectoryOf(flat[i].path, other) ==> Preceded(flat, i)
  }

  lemma FineForIff(front: seq<FileNode>, file: FileNode)
    ensures FineFor(front, file.path) <==>
              forall k :: 0 < k <= |Dirs(file.path)| ==> First(front, Dirs(file.path)[..k]) != FileFound
  {
    var dirs := Dirs(file.path);
    DirsAreClean(file.path);
    if FineFor(front, file.path) {
      forall k | 0 < k <= |dirs|
        ensures First(front, dirs[..k]) != FileFound
      {
        FineMeansNotFirst(front, file, k);
      }
    }
    if forall k :: 0 < k <= |dirs| ==> First(front, dirs[..k]) != FileFound {
      forall i | 0 <= i < |front| && IsDirectoryOf(front[i].path, file.path)
        ensures Preceded(front, i)
      {
        var k :| 0 < k <= |dirs| && front[i].path == DirPath(dirs[..k]);
        NotFirstMeansPreceded(front, dirs[..k], i);
      }
    }
  }

  lemma FineMeansNotFirst(front: seq<FileNode>, file: FileNode, k: nat)
    requires FineFor(front, file.path) && 0 < k <= |Dirs(file.path)|
    ensures First(front, Dirs(file.path)[..k]) != FileFound
  {
    var c := Dirs(file.path)[..k];
    DirsAreClean(file.path);
    FileFirstIff(front, c);
    IsDirectoryIff(c, file.path);
    if i :| 0 <= i < |front| && FileComesFirst(front, c, i) {
      assert Preceded(front, i);
      var j :| 0 <= j < i && IsDirectoryOf(front[i].path, front[j].path);
      IsDirectoryIff(c, front[j].path);
    }
  }

  lemma NotFirstMeansPreceded(front: seq<FileNode>, c: seq<string>, i: nat)
    requires c != [] && AllClean(c) && First(front, c) != FileFound
    requires i < |front| && front[i].path == DirPath(c)
    ensures Preceded(front, i)
  {
    FileFirstIff(front, c);
    assert !FileComesFirst(front, c, i);
    var k :| 0 <= k < i && IsPrefix(c, Dirs(front[k].path));
    IsDirectoryIff(c, front[k].path);
  }

  /** A file becomes a leaf of the list exactly if no chain of its directories meets a file first. */
  lemma AddLeavesIff(front: seq<FileNode>, file: FileNode)
    requires FilesAreLeaves(Build(front))
    ensures FilesAreLeaves(Add(Build(front), file)) <==> FineFor(front, file.path)
  {
    var dirs := Dirs(file.path);
    DirsAreClean(file.path);
    EverythingIsPlaced(front);
    InsertLeavesIff(Build(front), [], dirs, file);
    HitsIff(Build(front), [], dirs);
    FineForIff(front, file);
    forall k | 0 < k <= |dirs|
      ensures Look(Build(front), [], dirs[..k]) == First(front, dirs[..k])
    {
      LookIsFirst(front, dirs[..k]);
    }
  }

  /** Every listed file that is a directory of a later one is preceded by another file in that directory. */
  ghost predicate DirectoriesComeFirst(flat: seq<FileNode>) {
    forall i, j :: 0 <= i < j < |flat| && IsDirectoryOf(flat[i].path, flat[j].path) ==> Preceded(flat, i)
  }

  lemma PrecededInFront(flat: seq<FileNode>, n: nat, i: nat)
    requires i < n <= |flat|
    ensures Preceded(flat[..n], i) <==> Preceded(flat, i)
  {
    assert forall k :: 0 <= k < n ==> flat[..n][k] == flat[k];
    if k :| 0 <= k < i && IsDirectoryOf(flat[i].path, flat[k].path) {
      assert IsDirectoryOf(flat[..n][i].path, flat[..n][k].path);
    }
  }

  lemma DirectoriesSnocIff(flat: seq<FileNode>)
    requires flat != []
    ensures var n := |flat| - 1;
            DirectoriesComeFirst(flat) <==> DirectoriesComeFirst(flat[..n]) && FineFor(flat[..n], flat[n].path)
  {
    var n := |flat| - 1;
    var front := flat[..n];
    forall i | 0 <= i < n
      ensures front[i] == flat[i] && (Preceded(front, i) <==> Preceded(flat, i))
    {
      PrecededInFront(flat, n, i);
    }
    if DirectoriesComeFirst(front) && FineFor(front, flat[n].path) {
      forall i, j | 0 <= i < j < |flat| && IsDirectoryOf(flat[i].path, flat[j].path)
        ensures Preceded(flat, i)
      {
        assert j < n ==> IsDirectoryOf(front[i].path, front[j].path);
        assert j == n ==> IsDirectoryOf(front[i].path, flat[n].path);
      }
    }
    if DirectoriesComeFirst(flat) {
      forall i, j | 0 <= i < j < n && IsDirectoryOf(front[i].path, front[j].path)
        ensures Preceded(front, i)
      {
        assert IsDirectoryOf(flat[i].path, flat[j].path);
      }
      forall i | 0 <= i < n && IsDirectoryOf(front[i].path, flat[n].path)
        ensures Preceded(front, i)
      {
        assert IsDirectoryOf(flat[i].path, flat[n].path);
      }
    }
  }

  /**
   * For every flat list: all files become leaves of the nested tree if and only if every file that is
   * a directory of a later one is preceded by a file that had already made its path a directory.
   */
  lemma {:induction false} FilesBecomeLeavesIff(flat: seq<FileNode>)
    ensures FilesAreLeaves(Build(flat)) <==> DirectoriesComeFirst(flat)
  {
    if flat != [] {
      var n := |flat| - 1;
      var front := flat[..n];
      FilesBecomeLeavesIff(front);
      DirectoriesSnocIff(flat);
      EverythingIsPlaced(front);
      if FilesAreLeaves(Build(front)) {
        AddLeavesIff(front, flat[n]);
      } else {
        InsertLeavesIff(Build(front), [], Dirs(flat[n].path), flat[n]);
      }
    }
  }

  /** No file path is itself a directory of another. */
  predicate NoFileIsADirectory(flat: seq<FileNode>) {
    forall f, g :: f in flat && g in flat ==> !IsDirectoryOf(f.path, g.path)
  }

  /** Then in particular the files are leaves, in whatever order they are listed. */
  lemma FilesBecomeLeaves(flat: seq<FileNode>)
    requires NoFileIsADirectory(flat)
    ensures FilesAreLeaves(Build(flat))
  {
    FilesBecomeLeavesIff(flat);
    forall i, j | 0 <= i < j < |flat|
      ensures !IsDirectoryOf(flat[i].path, flat[j].path)
    {
      assert flat[i] in flat && flat[j] in flat;
    }
  }

  lemma DirsOfPair(x: string, y: string)
    requires Clean(x) && Clean(y)
    ensures Dirs("/" + x + "/" + y) == [x] && Dirs("/" + x) == [] && DirPath([x]) == "/" + x
  {
    PartsOfDirPath([x]);
    PartsOfDirPath([x, y]);
    assert [x, y][..1] == [x];
    assert DirPath([x, y]) == "/" + x + "/" + y;
  }

  /** The file `/a` listed before `/a/b` gets it as a child; listed after it, `/a` stays a leaf. */
  lemma OrderMatters()
    ensures var a, b, c := FileNode("a", "/a"), FileNode("b", "/a/b"), FileNode("c", "/a/c");
            !FilesAreLeaves(Build([a, b])) && FilesAreLeaves(Build([b, a, c]))
  {
    var a, b, c := FileNode("a", "/a"), FileNode("b", "/a/b"), FileNode("c", "/a/c");
    DirsOfPair("a", "b");
    DirsOfPair("a", "c");
    assert "/" + "a" == "/a" && "/" + "a" + "/" + "b" == "/a/b" && "/" + "a" + "/" + "c" == "/a/c";
    IsDirectoryIff(["a"], "/a/b");
    IsDirectoryIff(["a"], "/a/c");
    FilesBecomeLeavesIff([a, b]);
    FilesBecomeLeavesIff([b, a, c]);
    assert IsDirectoryOf([a, b][0].path, [a, b][1].path) && !Preceded([a, b], 0);
    assert |a.path| != |b.path|;
    InOrder(a, b, c, "a");
  }

  lemma NotAbove(path: string, x: string, other: string)
    requires Dirs(other) == [] || (Dirs(other) == [x] && path != DirPath([x]))
    ensures !IsDirectoryOf(path, other)
  {
    assert [x][..1] == [x];
  }

  /** Only the second path lies above others, and it is preceded. */
  lemma SecondPreceded(flat: seq<FileNode>)
    requires |flat| == 3 && IsDirectoryOf(flat[1].path, flat[0].path)
    requires !IsDirectoryOf(flat[0].path, flat[1].path) && !IsDirectoryOf(flat[0].path, flat[2].path)
    ensures DirectoriesComeFirst(flat)
  {
    assert Preceded(flat, 1);
    forall i, j | 0 <= i < j < |flat| && IsDirectoryOf(flat[i].path, flat[j].path)
      ensures Preceded(flat, i)
    {
      assert i == 0 ==> j == 1 || j == 2;
      assert i == 1;
    }
  }

  lemma InOrder(a: FileNode, b: FileNode, c: FileNode, x: string)
    requires Clean(x) && a.path == DirPath([x]) && a.path != b.path
    requires Dirs(a.path) == [] && Dirs(b.path) == [x] && Dirs(c.path) == [x]
    ensures DirectoriesComeFirst([b, a, c])
  {
    IsDirectoryIff([x], b.path);
    NotAbove(b.path, x, a.path);
    NotAbove(b.path, x, c.path);
    SecondPreceded([b, a, c]);
  }
}
