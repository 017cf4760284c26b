/**
 * The project file tree (components/file-tree.tsx): `buildTree` turns a
 * path-to-content record into nested folder and file nodes, then orders the
 * top level folders first and by name; a file node is active when its path is
 * the open file, and a click on it reports its path and content.
 *
 * A folder is always created with a children array, so the source's
 * `node.children` test is the folder kind here, and a file's undefined
 * children are the empty sequence.
 */
module FileTree {
  import opened Common
  import opened Strings

  datatype Kind = File | Folder

  datatype Node = Node(name: string, path: string, kind: Kind, children: seq<Node>, content: Option<string>)

  /** The file node the path with these segments should produce. */
  function FileNode(segments: seq<string>, content: string): Node
    requires |segments| > 0
  {
    Node(segments[|segments| - 1], Join(segments, '/'), File, [], Some(content))
  }

  /** `current.find(n => n.name === part)`, as an index; -1 when absent. */
  function FindName(level: seq<Node>, name: string): (k: int)
    ensures -1 <= k < |level|
    ensures k >= 0 ==> level[k].name == name && forall i :: 0 <= i < k ==> level[i].name != name
    ensures k == -1 <==> forall i :: 0 <= i < |level| ==> level[i].name != name
  {
    if level == [] then -1
    else if level[0].name == name then 0
    else
      var k := FindName(level[1..], name);
      if k == -1 then -1 else k + 1
  }

  /** The node pushed for segment `index`: a file with the content for the last segment, else an empty folder. */
  function NewNode(segments: seq<string>, index: nat, content: string): (n: Node)
    requires index < |segments|
    ensures n.name == segments[index] && n.path == Join(segments[..index + 1], '/') && n.children == []
    ensures index == |segments| - 1 ==> n.kind == File && n.content == Some(content)
    ensures index < |segments| - 1 ==> n.kind == Folder && n.content.None?
  {
    if index == |segments| - 1 then
      Node(segments[index], Join(segments[..index + 1], '/'), File, [], Some(content))
    else
      Node(segments[index], Join(segments[..index + 1], '/'), Folder, [], None)
  }

  /**
   * The inner `parts.forEach` from segment `index` on, at the level `current`
   * points to: find the node named by the segment or push a new one, then go on.
   */
  function Place(level: seq<Node>, segments: seq<string>, index: nat, content: string): seq<Node>
    requires index <= |segments|
    decreases |segments| - index, 1
  {
    if index == |segments| then level
    else
      var k := FindName(level, segments[index]);
      if k == -1 then Descend(level + [NewNode(segments, index, content)], |level|, segments, index, content)
      else Descend(level, k, segments, index, content)
  }

  /** Move `current` into the node at `at` when it is a folder and the segment is not the last; else stay. */
  function Descend(level: seq<Node>, at: nat, segments: seq<string>, index: nat, content: string): seq<Node>
    requires at < |level| && index < |segments|
    decreases |segments| - index, 0
  {
    var n := level[at];
    if index < |segments| - 1 && n.kind == Folder then
      level[at := n.(children := Place(n.children, segments, index + 1, content))]
    else Place(level, segments, index + 1, content)
  }

  /** Following names from segment `index` down to the last one. */
  function Reach(level: seq<Node>, segments: seq<string>, index: nat): Option<Node>
    requires index < |segments|
    decreases |segments| - index
  {
    var k := FindName(level, segments[index]);
    if k == -1 then None
    else if index == |segments| - 1 then Some(level[k])
    else if level[k].kind == Folder then Reach(level[k].children, segments, index + 1)
    else None
  }

  /** Replacing a node by one with the same name leaves every lookup by name as it was. */
  lemma FindNameUpdate(level: seq<Node>, at: nat, n: Node, name: string)
    requires at < |level| && n.name == level[at].name
    ensures FindName(level[at := n], name) == FindName(level, name)
  {
    var r := level[at := n];
    assert forall i :: 0 <= i < |level| ==> r[i].name == level[i].name;
    var k, k' := FindName(level, name), FindName(r, name);
    if k == -1 {
      assert k' == -1;
    } else {
      assert k' != -1;
      assert k' <= k && k <= k';
    }
  }

  /** Pushing a node leaves every lookup that already succeeded as it was. */
  lemma FindNameAppend(level: seq<Node>, n: Node, name: string)
    requires FindName(level, name) != -1
    ensures FindName(level + [n], name) == FindName(level, name)
  {
    var k := FindName(level, name);
    var k' := FindName(level + [n], name);
    assert (level + [n])[k] == level[k];
    assert k' <= k;
    assert k' < |level| ==> (level + [n])[k'] == level[k'];
  }

  /** A node pushed under a name the level lacks is what that name finds. */
  lemma FindNameNew(level: seq<Node>, n: Node)
    requires FindName(level, n.name) == -1
    ensures FindName(level + [n], n.name) == |level|
  {
    var r := level + [n];
    var k := FindName(r, n.name);
    assert r[|level|].name == n.name;
    assert k != -1;
    assert forall i :: 0 <= i < |level| ==> r[i].name != n.name;
  }

  // ---------------------------------------------------------------- names are unique on each level

  predicate UniqueNames(level: seq<Node>) {
    forall i, j :: 0 <= i < j < |level| ==> level[i].name != level[j].name
  }

  /** Unique names on every level of the tree. */
  predicate AllUnique(level: seq<Node>)
    decreases level
  {
    UniqueNames(level) && forall n :: n in level ==> AllUnique(n.children)
  }

  lemma AllUniqueUpdate(level: seq<Node>, at: nat, n: Node)
    requires at < |level| && AllUnique(level) && AllUnique(n.children) && n.name == level[at].name
    ensures AllUnique(level[at := n])
  {
    var r := level[at := n];
    assert forall i :: 0 <= i < |level| ==> r[i].name == level[i].name;
    forall m | m in r
      ensures AllUnique(m.children)
    {
      var i :| 0 <= i < |r| && r[i] == m;
      if i != at {
        assert m == level[i];
      }
    }
  }

  lemma AllUniqueAppend(level: seq<Node>, n: Node)
    requires AllUnique(level) && n.children == [] && FindName(level, n.name) == -1
    ensures AllUnique(level + [n])
  {
    var r := level + [n];
    assert AllUnique(n.children);
    forall m | m in r
      ensures AllUnique(m.children)
    {
      var i :| 0 <= i < |r| && r[i] == m;
      if i < |level| {
        assert m in level;
      }
    }
  }

  /** An existing sibling is reused, so no level ever holds two nodes with one name. */
  lemma {:induction false} PlaceUnique(level: seq<Node>, segments: seq<string>, index: nat, content: string)
    requires index <= |segments| && AllUnique(level)
    ensures AllUnique(Place(level, segments, index, content))
    decreases |segments| - index, 1
  {
    if index < |segments| {
      var k := FindName(level, segments[index]);
      if k == -1 {
        AllUniqueAppend(level, NewNode(segments, index, content));
        DescendUnique(level + [NewNode(segments, index, content)], |level|, segments, index, content);
      } else {
        DescendUnique(level, k, segments, index, content);
      }
    }
  }

  lemma {:induction false} DescendUnique(level: seq<Node>, at: nat, segments: seq<string>, index: nat, content: string)
    requires at < |level| && index < |segments| && AllUnique(level)
    ensures AllUnique(Descend(level, at, segments, index, content))
    decreases |segments| - index, 0
  {
    var n := level[at];
    if index < |segments| - 1 && n.kind == Folder {
      assert n in level;
      PlaceUnique(n.children, segments, index + 1, content);
      AllUniqueUpdate(level, at, n.(children := Place(n.children, segments, index + 1, content)));
    } else {
      PlaceUnique(level, segments, index + 1, content);
    }
  }

  // ---------------------------------------------------------------- a tree that mirrors its paths

  /** One segment longer. */
  lemma SliceSnoc(q: seq<string>, j: nat)
    requires j < |q|
    ensures q[..j] + [q[j]] == q[..j + 1]
  {
  }

  /** `a` is `b` or a leading run of `b`'s segments. */
  predicate SegmentPrefix(a: seq<string>, b: seq<string>) {
    |a| <= |b| && b[..|a|] == a
  }

  /** No recorded path is a segment-prefix of `q`, nor `q` of one of them. */
  predicate Fresh(q: seq<string>, files: map<seq<string>, string>) {
    forall p :: p in files ==> !SegmentPrefix(p, q) && !SegmentPrefix(q, p)
  }

  /** Some recorded path runs on below `s`. */
  predicate IsFolderOf(s: seq<string>, files: map<seq<string>, string>) {
    exists p :: p in files && SegmentPrefix(s, p) && |s| < |p|
  }

  /** One node, at the position `prefix`, against the recorded paths. */
  predicate NodeMirrors(n: Node, prefix: seq<string>, files: map<seq<string>, string>) {
    var s := prefix + [n.name];
    && n.path == Join(s, '/')
    && (n.kind == File ==> s in files && n.content == Some(files[s]) && n.children == [])
    && (n.kind == Folder ==> n.content.None? && IsFolderOf(s, files))
  }

  /**
   * Every node sits at the position its path names: a file at a recorded path,
   * carrying that path's content, a folder above one.
   */
  predicate Mirrors(level: seq<Node>, prefix: seq<string>, files: map<seq<string>, string>)
    decreases level
  {
    && UniqueNames(level)
    && (forall i :: 0 <= i < |level| ==> NodeMirrors(level[i], prefix, files))
    && (forall n :: n in level && n.kind == Folder ==> Mirrors(n.children, prefix + [n.name], files))
  }

  /** Recording one more path never breaks the mirror. */
  lemma {:induction false} MirrorsGrow(level: seq<Node>, prefix: seq<string>, files: map<seq<string>, string>,
                                      q: seq<string>, c: string)
    requires Mirrors(level, prefix, files) && q !in files
    ensures Mirrors(level, prefix, files[q := c])
    decreases level
  {
    var files' := files[q := c];
    forall i | 0 <= i < |level|
      ensures NodeMirrors(level[i], prefix, files')
    {
      var s := prefix + [level[i].name];
      if level[i].kind == Folder {
        var p :| p in files && SegmentPrefix(s, p) && |s| < |p|;
        assert p in files';
      }
    }
    forall n | n in level && n.kind == Folder
      ensures Mirrors(n.children, prefix + [n.name], files')
    {
      MirrorsGrow(n.children, prefix + [n.name], files, q, c);
    }
  }

  lemma MirrorsUpdate(level: seq<Node>, at: nat, n: Node, prefix: seq<string>, files: map<seq<string>, string>)
    requires at < |level| && Mirrors(level, prefix, files) && n.name == level[at].name
    requires NodeMirrors(n, prefix, files) && (n.kind == Folder ==> Mirrors(n.children, prefix + [n.name], files))
    ensures Mirrors(level[at := n], prefix, files)
  {
    var r := level[at := n];
    assert forall i :: 0 <= i < |level| ==> r[i].name == level[i].name;
    assert forall i :: 0 <= i < |r| && i != at ==> r[i] == level[i];
    forall m | m in r && m.kind == Folder
      ensures Mirrors(m.children, prefix + [m.name], files)
    {
      var i :| 0 <= i < |r| && r[i] == m;
      if i != at {
        assert m in level;
      }
    }
  }

  lemma MirrorsAppend(level: seq<Node>, n: Node, prefix: seq<string>, files: map<seq<string>, string>)
    requires Mirrors(level, prefix, files) && FindName(level, n.name) == -1
    requires NodeMirrors(n, prefix, files) && (n.kind == Folder ==> Mirrors(n.children, prefix + [n.name], files))
    ensures Mirrors(level + [n], prefix, files)
  {
    var r := level + [n];
    assert forall i :: 0 <= i < |level| ==> r[i] == level[i];
    forall m | m in r && m.kind == Folder
      ensures Mirrors(m.children, prefix + [m.name], files)
    {
      var i :| 0 <= i < |r| && r[i] == m;
      if i < |level| {
        assert m in level;
      }
    }
  }

  /** On the way down a fresh path, no recorded file and, at its end, nothing at all is in the way. */
  lemma FreshPosition(q: seq<string>, j: nat, files: map<seq<string>, string>)
    requires j < |q| && Fresh(q, files)
    ensures q[..j + 1] !in files
    ensures j == |q| - 1 ==> !IsFolderOf(q[..j + 1], files)
  {
    var s := q[..j + 1];
    assert SegmentPrefix(s, q);
    if j == |q| - 1 {
      assert s == q;
      forall p | p in files
        ensures !(SegmentPrefix(s, p) && |s| < |p|)
      {
        assert !SegmentPrefix(q, p);
      }
    }
  }

  /** The node found for segment `j` of a fresh path: a folder, and not at the path's end. */
  lemma FoundIsFolder(level: seq<Node>, q: seq<string>, j: nat, k: int, files: map<seq<string>, string>)
    requires j < |q| && Mirrors(level, q[..j], files) && Fresh(q, files)
    requires k == FindName(level, q[j]) && k != -1
    ensures level[k].kind == Folder && j < |q| - 1
  {
    SliceSnoc(q, j);
    assert NodeMirrors(level[k], q[..j], files);
    FreshPosition(q, j, files);
  }

  /**
   * Inserting a fresh path into a mirroring tree: the tree mirrors the enlarged
   * set of paths and the path reaches a file with its content.
   */
  lemma {:induction false} PlaceFresh(level: seq<Node>, q: seq<string>, j: nat, c: string,
                                     files: map<seq<string>, string>)
    requires j < |q| && Mirrors(level, q[..j], files) && Fresh(q, files)
    ensures Mirrors(Place(level, q, j, c), q[..j], files[q := c])
    ensures Reach(Place(level, q, j, c), q, j) == Some(FileNode(q, c))
    decreases |q| - j, 1
  {
    FreshPosition(q, |q| - 1, files);
    assert q[..|q|] == q;
    MirrorsGrow(level, q[..j], files, q, c);
    var k := FindName(level, q[j]);
    if k == -1 {
      PlaceNew(level, q, j, c, files);
    } else {
      PlaceFound(level, q, j, c, files, k);
    }
  }

  /** The case of `PlaceFresh` where segment `j` names a folder already on this level. */
  lemma {:induction false} PlaceFound(level: seq<Node>, q: seq<string>, j: nat, c: string,
                                     files: map<seq<string>, string>, k: int)
    requires j < |q| && Mirrors(level, q[..j], files) && Fresh(q, files) && q !in files
    requires Mirrors(level, q[..j], files[q := c])
    requires k == FindName(level, q[j]) && k != -1
    ensures Mirrors(Place(level, q, j, c), q[..j], files[q := c])
    ensures Reach(Place(level, q, j, c), q, j) == Some(FileNode(q, c))
    decreases |q| - j, 0
  {
    var files' := files[q := c];
    FoundIsFolder(level, q, j, k, files);
    var n := level[k];
    FoundChild(level, q, j, k, files);
    PlaceFresh(n.children, q, j + 1, c, files);
    var n' := n.(children := Place(n.children, q, j + 1, c));
    PlaceAt(level, q, j, c, k);
    SliceSnoc(q, j);
    assert n'.name == q[j];
    FoundUpdate(level, q[..j], files', k, n');
    FindNameUpdate(level, k, n', q[j]);
  }

  /** The folder found for segment `j` mirrors one level further down the path. */
  lemma FoundChild(level: seq<Node>, q: seq<string>, j: nat, k: int, files: map<seq<string>, string>)
    requires j < |q| && Mirrors(level, q[..j], files)
    requires k == FindName(level, q[j]) && k != -1 && level[k].kind == Folder
    ensures Mirrors(level[k].children, q[..j + 1], files)
  {
    assert level[k] in level;
    SliceSnoc(q, j);
  }

  /** A folder whose subtree grew, under a larger set of paths, still mirrors. */
  lemma FoundUpdate(level: seq<Node>, prefix: seq<string>, files: map<seq<string>, string>, k: int, n': Node)
    requires 0 <= k < |level| && Mirrors(level, prefix, files) && level[k].kind == Folder
    requires n' == level[k].(children := n'.children)
    requires Mirrors(n'.children, prefix + [n'.name], files)
    ensures Mirrors(level[k := n'], prefix, files)
  {
    assert NodeMirrors(level[k], prefix, files);
    MirrorsUpdate(level, k, n', prefix, files);
  }

  /** The case of `PlaceFresh` where segment `j` is not on this level yet. */
  lemma {:induction false} PlaceNew(level: seq<Node>, q: seq<string>, j: nat, c: string,
                                   files: map<seq<string>, string>)
    requires j < |q| && Mirrors(level, q[..j], files[q := c]) && Fresh(q, files) && q !in files
    requires FindName(level, q[j]) == -1
    ensures Mirrors(Place(level, q, j, c), q[..j], files[q := c])
    ensures Reach(Place(level, q, j, c), q, j) == Some(FileNode(q, c))
    decreases |q| - j, 0
  {
    var files' := files[q := c];
    var m := NewNode(q, j, c);
    var level' := level + [m];
    SliceSnoc(q, j);
    if j == |q| - 1 {
      assert q[..j + 1] == q;
      assert m == FileNode(q, c);
      PlaceAbsent(level, q, j, c);
      MirrorsAppend(level, m, q[..j], files');
      FindNameNew(level, m);
    } else {
      var inner := Place([], q, j + 1, c);
      assert Mirrors([], q[..j + 1], files);
      PlaceFresh([], q, j + 1, c, files);
      var m' := m.(children := inner);
      PlaceAbsent(level, q, j, c);
      assert IsFolderOf(q[..j + 1], files') by {
        assert q in files' && SegmentPrefix(q[..j + 1], q);
      }
      MirrorsAppend(level, m', q[..j], files');
      FindNameNew(level, m');
    }
  }

  /** A fresh insertion leaves every file already reachable where it was. */
  lemma {:induction false} PlaceKeeps(level: seq<Node>, q: seq<string>, p: seq<string>, j: nat, c: string,
                                     files: map<seq<string>, string>, f: Node)
    requires j < |q| && j < |p| && q[..j] == p[..j]
    requires Mirrors(level, q[..j], files) && Fresh(q, files)
    requires Reach(level, p, j) == Some(f) && f.kind == File
    ensures Reach(Place(level, q, j, c), p, j) == Some(f)
    decreases |q| - j
  {
    var k := FindName(level, q[j]);
    if k == -1 {
      KeepsBesideNew(level, q, p, j, c, f);
    } else {
      FoundIsFolder(level, q, j, k, files);
      var n := level[k];
      var n' := n.(children := Place(n.children, q, j + 1, c));
      PlaceAt(level, q, j, c, k);
      FindNameUpdate(level, k, n', p[j]);
      if FindName(level, p[j]) == k {
        assert n in level;
        SliceSnoc(p, j);
        SliceSnoc(q, j);
        PlaceKeeps(n.children, q, p, j + 1, c, files, f);
      }
    }
  }

  /** Pushing a new sibling leaves the other names' lookups alone. */
  lemma KeepsBesideNew(level: seq<Node>, q: seq<string>, p: seq<string>, j: nat, c: string, f: Node)
    requires j < |q| && j < |p| && FindName(level, q[j]) == -1
    requires Reach(level, p, j) == Some(f)
    ensures Reach(Place(level, q, j, c), p, j) == Some(f)
  {
    var kp := FindName(level, p[j]);
    var m' := PushedFor(q, j, c);
    PlaceAbsent(level, q, j, c);
    FindNameAppend(level, m', p[j]);
    assert (level + [m'])[kp] == level[kp];
  }

  /** What `Place` pushes for a segment missing from the level, with its subtree filled in. */
  function PushedFor(q: seq<string>, j: nat, c: string): Node
    requires j < |q|
  {
    if j == |q| - 1 then NewNode(q, j, c)
    else NewNode(q, j, c).(children := Place([], q, j + 1, c))
  }

  lemma PlaceAbsent(level: seq<Node>, q: seq<string>, j: nat, c: string)
    requires j < |q| && FindName(level, q[j]) == -1
    ensures Place(level, q, j, c) == level + [PushedFor(q, j, c)]
  {
    var level' := level + [NewNode(q, j, c)];
    assert Place(level, q, j, c) == Descend(level', |level|, q, j, c);
    if j < |q| - 1 {
      assert level'[|level|].children == [];
      assert level'[|level| := PushedFor(q, j, c)] == level + [PushedFor(q, j, c)];
    } else {
      assert Descend(level', |level|, q, j, c) == Place(level', q, j + 1, c) == level';
    }
  }

  lemma PlaceAt(level: seq<Node>, q: seq<string>, j: nat, c: string, k: int)
    requires j < |q| - 1 && k == FindName(level, q[j]) && k != -1 && level[k].kind == Folder
    ensures Place(level, q, j, c) == level[k := level[k].(children := Place(level[k].children, q, j + 1, c))]
  {
    assert Place(level, q, j, c) == Descend(level, k, q, j, c);
  }

  // ---------------------------------------------------------------- the top-level order

  /** `localeCompare` as the code-point order of the names. */
  predicate NameLe(s: string, t: string) {
    s == [] || (t != [] && (s[0] < t[0] || (s[0] == t[0] && NameLe(s[1..], t[1..]))))
  }

  lemma {:induction false} NameLeTotal(s: string, t: string)
    ensures NameLe(s, t) || NameLe(t, s)
  {
    if s != [] && t != [] && s[0] == t[0] {
      NameLeTotal(s[1..], t[1..]);
    }
  }

  /** The root comparator: folders before files, then names in order. */
  predicate Precedes(a: Node, b: Node) {
    if a.kind == b.kind then NameLe(a.name, b.name) else a.kind == Folder
  }

  lemma PrecedesTotal(a: Node, b: Node)
    ensures Precedes(a, b) || Precedes(b, a)
  {
    NameLeTotal(a.name, b.name);
  }

  /** Each node precedes the next. */
  predicate SortedRoot(level: seq<Node>) {
    forall i :: 0 <= i < |level| - 1 ==> Precedes(level[i], level[i + 1])
  }

  function InsertRoot(n: Node, sorted: seq<Node>): (r: seq<Node>)
    requires SortedRoot(sorted)
    ensures SortedRoot(r)
    ensures multiset(r) == multiset(sorted) + multiset{n}
    ensures forall x :: x in r <==> x == n || x in sorted
    ensures r != [] && (r[0] == n || (sorted != [] && r[0] == sorted[0]))
  {
    if sorted == [] || Precedes(n, sorted[0]) then [n] + sorted
    else
      PrecedesTotal(n, sorted[0]);
      var rest := InsertRoot(n, sorted[1..]);
      assert sorted == [sorted[0]] + sorted[1..];
      [sorted[0]] + rest
  }

  /** `root.sort(...)`: the top level only; the nodes themselves are untouched. */
  function SortRoot(level: seq<Node>): (r: seq<Node>)
    ensures SortedRoot(r)
    ensures multiset(r) == multiset(level)
    ensures forall x :: x in r <==> x in level
  {
    if level == [] then []
    else
      assert level == [level[0]] + level[1..];
      InsertRoot(level[0], SortRoot(level[1..]))
  }

  /** Inserting a node whose name is new keeps the names unique. */
  lemma {:induction false} InsertUnique(n: Node, sorted: seq<Node>)
    requires SortedRoot(sorted) && UniqueNames(sorted) && forall x :: x in sorted ==> x.name != n.name
    ensures UniqueNames(InsertRoot(n, sorted))
  {
    var r := InsertRoot(n, sorted);
    if sorted == [] || Precedes(n, sorted[0]) {
      assert r == [n] + sorted;
      forall i, j | 0 <= i < j < |r|
        ensures r[i].name != r[j].name
      {
        assert r[j] == sorted[j - 1];
        if i > 0 {
          assert r[i] == sorted[i - 1];
        }
      }
    } else {
      var rest := InsertRoot(n, sorted[1..]);
      assert r == [sorted[0]] + rest;
      assert forall t :: 0 <= t < |sorted| - 1 ==> sorted[1..][t] == sorted[t + 1];
      InsertUnique(n, sorted[1..]);
      forall i, j | 0 <= i < j < |r|
        ensures r[i].name != r[j].name
      {
        assert r[j] == rest[j - 1];
        if i > 0 {
          assert r[i] == rest[i - 1];
        } else {
          assert r[j] in rest;
          assert r[j] == n || r[j] in sorted[1..];
        }
      }
    }
  }

  /** Sorting a level with unique names keeps them unique. */
  lemma {:induction false} SortUnique(level: seq<Node>)
    requires UniqueNames(level)
    ensures UniqueNames(SortRoot(level))
  {
    if level != [] {
      assert forall t :: 0 <= t < |level| - 1 ==> level[1..][t] == level[t + 1];
      SortUnique(level[1..]);
      forall x | x in SortRoot(level[1..])
        ensures x.name != level[0].name
      {
        var t :| 0 <= t < |level| - 1 && level[1..][t] == x;
      }
      InsertUnique(level[0], SortRoot(level[1..]));
    }
  }

  /** Reordering a level with unique names keeps what each name finds, and every level below. */
  lemma Permuted(level: seq<Node>, other: seq<Node>)
    requires AllUnique(level) && UniqueNames(other) && forall x :: x in other <==> x in level
    ensures AllUnique(other)
    ensures forall p :: |p| > 0 ==> Reach(other, p, 0) == Reach(level, p, 0)
  {
    forall p | |p| > 0
      ensures Reach(other, p, 0) == Reach(level, p, 0)
    {
      var k := FindName(level, p[0]);
      var k' := FindName(other, p[0]);
      if k != -1 {
        assert level[k] in other;
        assert other[k'] in level;
        var i :| 0 <= i < |level| && level[i] == other[k'];
        assert i == k;
      } else {
        assert forall t :: 0 <= t < |other| ==> other[t] in level;
        assert k' == -1;
      }
    }
  }

  /** Reordering a level keeps it mirroring the same recorded paths. */
  lemma MirrorsPermuted(level: seq<Node>, other: seq<Node>, prefix: seq<string>, files: map<seq<string>, string>)
    requires Mirrors(level, prefix, files) && UniqueNames(other) && forall x :: x in other <==> x in level
    ensures Mirrors(other, prefix, files)
  {
    forall i | 0 <= i < |other|
      ensures NodeMirrors(other[i], prefix, files)
    {
      assert other[i] in level;
      var j :| 0 <= j < |level| && level[j] == other[i];
    }
  }

  // ---------------------------------------------------------------- buildTree

  /** The segments of a path: `path.split('/')`. */
  function Segments(path: string): seq<string> {
    Split(path, '/')
  }

  /** No two entries' paths are equal or one a segment-prefix of the other. */
  predicate PrefixFree(entries: seq<(string, string)>) {
    forall i, j :: 0 <= i < |entries| && 0 <= j < |entries| && i != j ==>
      !SegmentPrefix(Segments(entries[i].0), Segments(entries[j].0))
  }

  /** The files of the first `e` entries, keyed by their segments. */
  function EntryFiles(entries: seq<(string, string)>, e: nat): (files: map<seq<string>, string>)
    requires e <= |entries|
    ensures forall p :: p in files <==> exists i :: 0 <= i < e && p == Segments(entries[i].0)
  {
    if e == 0 then map[]
    else EntryFiles(entries, e - 1)[Segments(entries[e - 1].0) := entries[e - 1].1]
  }

  /** After the first `e` entries of a prefix-free record: a mirroring tree reaching each of them. */
  predicate Built(level: seq<Node>, entries: seq<(string, string)>, e: nat, files: map<seq<string>, string>)
    requires e <= |entries|
  {
    && Mirrors(level, [], files)
    && (forall p :: p in files ==> exists i :: 0 <= i < e && p == Segments(entries[i].0))
    && forall i :: 0 <= i < e ==>
         Reach(level, Segments(entries[i].0), 0) == Some(FileNode(Segments(entries[i].0), entries[i].1))
  }

  /** One more entry keeps `Built`. */
  lemma BuildStep(level: seq<Node>, entries: seq<(string, string)>, e: nat, files: map<seq<string>, string>)
    requires e < |entries| && PrefixFree(entries) && Built(level, entries, e, files)
    ensures Built(Place(level, Segments(entries[e].0), 0, entries[e].1), entries, e + 1,
                  files[Segments(entries[e].0) := entries[e].1])
  {
    var q := Segments(entries[e].0);
    var c := entries[e].1;
    assert q[..0] == [];
    assert Fresh(q, files) by {
      forall p | p in files
        ensures !SegmentPrefix(p, q) && !SegmentPrefix(q, p)
      {
        var i :| 0 <= i < e && p == Segments(entries[i].0);
      }
    }
    PlaceFresh(level, q, 0, c, files);
    forall i | 0 <= i < e
      ensures Reach(Place(level, q, 0, c), Segments(entries[i].0), 0)
           == Some(FileNode(Segments(entries[i].0), entries[i].1))
    {
      PlaceKeeps(level, q, Segments(entries[i].0), 0, c, files, FileNode(Segments(entries[i].0), entries[i].1));
    }
  }

  /** One pass of the `forEach`: placing entry `e` keeps names unique and, for a prefix-free record, `Built`. */
  lemma BuildLoopStep(level: seq<Node>, entries: seq<(string, string)>, e: nat, files: map<seq<string>, string>)
    requires e < |entries| && AllUnique(level) && files == EntryFiles(entries, e)
    requires PrefixFree(entries) ==> Built(level, entries, e, files)
    ensures AllUnique(Place(level, Segments(entries[e].0), 0, entries[e].1))
    ensures files[Segments(entries[e].0) := entries[e].1] == EntryFiles(entries, e + 1)
    ensures PrefixFree(entries) ==>
      Built(Place(level, Segments(entries[e].0), 0, entries[e].1), entries, e + 1,
            files[Segments(entries[e].0) := entries[e].1])
  {
    PlaceUnique(level, Segments(entries[e].0), 0, entries[e].1);
    if PrefixFree(entries) {
      BuildStep(level, entries, e, files);
    }
  }

  /** Sorting the top level of a built tree keeps what it mirrors and reaches. */
  lemma SortBuilt(level: seq<Node>, entries: seq<(string, string)>, files: map<seq<string>, string>)
    requires AllUnique(level) && files == EntryFiles(entries, |entries|)
    requires PrefixFree(entries) ==> Built(level, entries, |entries|, files)
    ensures AllUnique(SortRoot(level)) && SortedRoot(SortRoot(level))
    ensures PrefixFree(entries) ==> forall i :: 0 <= i < |entries| ==>
      Reach(SortRoot(level), Segments(entries[i].0), 0) == Some(FileNode(Segments(entries[i].0), entries[i].1))
    ensures PrefixFree(entries) ==> Mirrors(SortRoot(level), [], files)
  {
    var root := SortRoot(level);
    SortUnique(level);
    Permuted(level, root);
    if PrefixFree(entries) {
      MirrorsPermuted(level, root, [], files);
      forall i | 0 <= i < |entries|
        ensures Reach(root, Segments(entries[i].0), 0) == Some(FileNode(Segments(entries[i].0), entries[i].1))
      {
        assert |Segments(entries[i].0)| > 0;
      }
    }
  }

  /** `buildTree(fileMap)` over the record's entries in `Object.entries` order. */
  method BuildTree(entries: seq<(string, string)>) returns (root: seq<Node>)
    ensures AllUnique(root)
    ensures SortedRoot(root)
    ensures PrefixFree(entries) ==> forall i :: 0 <= i < |entries| ==>
      Reach(root, Segments(entries[i].0), 0) == Some(FileNode(Segments(entries[i].0), entries[i].1))
    ensures PrefixFree(entries) ==> Mirrors(root, [], EntryFiles(entries, |entries|))
  {
    var level: seq<Node> := [];
    ghost var files: map<seq<string>, string> := map[];
    for e := 0 to |entries|
      invariant AllUnique(level)
      invariant files == EntryFiles(entries, e)
      invariant PrefixFree(entries) ==> Built(level, entries, e, files)
    {
      BuildLoopStep(level, entries, e, files);
      level := Place(level, Segments(entries[e].0), 0, entries[e].1);
      files := files[Segments(entries[e].0) := entries[e].1];
    }
    root := SortRoot(level);
    SortBuilt(level, entries, files);
  }

  // ---------------------------------------------------------------- rendering rules

  /** `node.path === currentFile`. */
  predicate IsActive(n: Node, currentFile: string) {
    n.path == currentFile
  }

  /** What a click on a node reports to `onFileSelect`: folders only toggle, files need content. */
  function Select(n: Node): (r: Option<(string, string)>)
    ensures r.Some? <==> n.kind == File && n.content.Some?
    ensures r.Some? ==> r.value == (n.path, n.content.value)
  {
    if n.kind == File && n.content.Some? then Some((n.path, n.content.value)) else None
  }

  /** A file built from an entry is selectable, reports the entry's own path and text, and is active on it. */
  lemma BuiltFileSelects(path: string, content: string)
    ensures Select(FileNode(Segments(path), content)) == Some((path, content))
    ensures IsActive(FileNode(Segments(path), content), path)
  {
    JoinSplit(path, '/');
  }
}
