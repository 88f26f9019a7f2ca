/**
  In-memory stand-in for the version-control repository: snapshot trees
  whose entries are blobs, sub-trees or other objects, and a commit store in
  which every parent was created before its child.
 */
module Repository {
  import opened Wrappers
  import opened Text

  newtype byte = x: int | 0 <= x < 256

  /** What a tree entry points at; submodule links and any other kind are Other. */
  datatype Node = Blob(content: seq<byte>) | Tree(children: seq<Entry>) | Other

  datatype Entry = Entry(name: string, node: Node)

  /** A blob of the snapshot at its relative path. */
  datatype BlobFile = BlobFile(path: string, content: seq<byte>)

  /** The blobs under `entries`, listed depth first in entry order, each
      under its directory prefix joined with its name. */
  function Files(prefix: string, entries: seq<Entry>): seq<BlobFile>
    decreases entries
  {
    if entries == [] then []
    else
      var e := entries[0];
      (match e.node
       case Blob(content) => [BlobFile(Join(prefix, e.name), content)]
       case Tree(children) => Files(Join(prefix, e.name), children)
       case Other => [])
      + Files(prefix, entries[1..])
  }

  lemma {:induction false} FilesAppend(prefix: string, a: seq<Entry>, b: seq<Entry>)
    ensures Files(prefix, a + b) == Files(prefix, a) + Files(prefix, b)
    decreases a
  {
    if a != [] {
      var e := a[0];
      var here := match e.node
        case Blob(content) => [BlobFile(Join(prefix, e.name), content)]
        case Tree(children) => Files(Join(prefix, e.name), children)
        case Other => [];
      assert (a + b)[0] == e;
      assert (a + b)[1..] == a[1..] + b;
      assert Files(prefix, a + b) == here + Files(prefix, a[1..] + b);
      FilesAppend(prefix, a[1..], b);
      assert Files(prefix, a) == here + Files(prefix, a[1..]);
    } else {
      assert a + b == b;
    }
  }

  /** The path reached from `prefix` by descending through `names`. */
  function JoinAll(prefix: string, names: seq<string>): string
    decreases names
  {
    if names == [] then prefix else JoinAll(Join(prefix, names[0]), names[1..])
  }

  /** Independent description of reachability: descending `names` from
      `entries`, one entry per name, ends at a blob holding `content`. */
  ghost predicate BlobAt(entries: seq<Entry>, names: seq<string>, content: seq<byte>)
    decreases entries
  {
    |names| > 0 &&
    exists k :: 0 <= k < |entries| && entries[k].name == names[0] &&
      match entries[k].node
      case Blob(c) => |names| == 1 && c == content
      case Tree(children) => BlobAt(children, names[1..], content)
      case Other => false
  }

  /** Entry `k` is a witness for `BlobAt`. */
  lemma BlobAtEntry(entries: seq<Entry>, k: int, names: seq<string>, content: seq<byte>)
    requires 0 <= k < |entries| && |names| > 0 && entries[k].name == names[0] && !entries[k].node.Other?
    requires entries[k].node.Blob? ==> |names| == 1 && entries[k].node.content == content
    requires entries[k].node.Tree? ==> BlobAt(entries[k].node.children, names[1..], content)
    ensures BlobAt(entries, names, content)
  {
  }

  /** A blob reachable from the later entries is reachable from them all. */
  lemma BlobAtTail(entries: seq<Entry>, names: seq<string>, content: seq<byte>)
    requires |entries| > 0 && BlobAt(entries[1..], names, content)
    ensures BlobAt(entries, names, content)
  {
    var tail := entries[1..];
    var k :| 0 <= k < |tail| && tail[k].name == names[0] &&
      match tail[k].node
      case Blob(c) => |names| == 1 && c == content
      case Tree(children) => BlobAt(children, names[1..], content)
      case Other => false;
    assert tail[k] == entries[k + 1];
    BlobAtEntry(entries, k + 1, names, content);
  }

  /** Every listed blob is reachable at the path it is listed under. */
  lemma {:induction false} FilesSound(prefix: string, entries: seq<Entry>, f: BlobFile)
    requires f in Files(prefix, entries)
    ensures exists names :: BlobAt(entries, names, f.content) && f.path == JoinAll(prefix, names)
    decreases entries
  {
    var e := entries[0];
    var here := Files(prefix, [e]);
    FilesAppend(prefix, [e], entries[1..]);
    assert [e] + entries[1..] == entries;
    if f in here {
      match e.node
      case Blob(c) =>
        assert f == BlobFile(Join(prefix, e.name), c);
        var names := [e.name];
        assert JoinAll(Join(prefix, e.name), []) == f.path;
        BlobAtEntry(entries, 0, names, f.content);
      case Tree(children) =>
        assert here == Files(Join(prefix, e.name), children);
        FilesSound(Join(prefix, e.name), children, f);
        var rest :| BlobAt(children, rest, f.content) && f.path == JoinAll(Join(prefix, e.name), rest);
        var names := [e.name] + rest;
        assert names[0] == e.name && names[1..] == rest;
        BlobAtEntry(entries, 0, names, f.content);
    } else {
      FilesSound(prefix, entries[1..], f);
      var names :| BlobAt(entries[1..], names, f.content) && f.path == JoinAll(prefix, names);
      BlobAtTail(entries, names, f.content);
    }
  }

  /** Every reachable blob is listed, under the path that reaches it. */
  lemma {:induction false} FilesComplete(prefix: string, entries: seq<Entry>, names: seq<string>, content: seq<byte>)
    requires BlobAt(entries, names, content)
    ensures BlobFile(JoinAll(prefix, names), content) in Files(prefix, entries)
    decreases entries
  {
    var k :| 0 <= k < |entries| && entries[k].name == names[0] &&
      match entries[k].node
      case Blob(c) => |names| == 1 && c == content
      case Tree(children) => BlobAt(children, names[1..], content)
      case Other => false;
    var e := entries[k];
    assert entries == entries[..k] + [e] + entries[k + 1..];
    FilesAppend(prefix, entries[..k] + [e], entries[k + 1..]);
    FilesAppend(prefix, entries[..k], [e]);
    match e.node
    case Blob(c) =>
      assert names == [e.name];
      assert Files(prefix, [e]) == [BlobFile(JoinAll(prefix, names), content)];
    case Tree(children) =>
      FilesComplete(Join(prefix, e.name), children, names[1..], content);
      assert Files(prefix, [e]) == Files(Join(prefix, e.name), children);
  }

  /** What git guarantees of a tree: within each directory the names are
      non-empty, free of separators and pairwise different. */
  ghost predicate WellFormedTree(entries: seq<Entry>)
    decreases entries
  {
    (forall i :: 0 <= i < |entries| ==> entries[i].name != "" && Sep !in entries[i].name) &&
    (forall i, j :: 0 <= i < j < |entries| ==> entries[i].name != entries[j].name) &&
    (forall i :: 0 <= i < |entries| && entries[i].node.Tree? ==> WellFormedTree(entries[i].node.children))
  }

  /** `path` is `base` itself or lies inside the directory `base`. */
  ghost predicate Under(path: string, base: string)
  {
    path == base || (|base| < |path| && path[..|base|] == base && path[|base|] == Sep)
  }

  lemma UnderParent(path: string, base: string, name: string)
    requires base != "" && Under(path, Join(base, name))
    ensures Under(path, base)
  {
    var b := Join(base, name);
    assert b[..|base|] == base && b[|base|] == Sep;
    assert path[..|b|] == b;
    assert path[..|base|] == b[..|base|];
  }

  /** Paths inside two differently named entries of one directory differ. */
  lemma SiblingsApart(prefix: string, n1: string, n2: string, x: string, y: string)
    requires n1 != "" && n2 != "" && Sep !in n1 && Sep !in n2 && n1 != n2
    requires Under(x, Join(prefix, n1)) && Under(y, Join(prefix, n2))
    ensures x != y
  {
    var q := if prefix == "" then "" else prefix + [Sep];
    var b1, b2 := q + n1, q + n2;
    assert Join(prefix, n1) == b1 && Join(prefix, n2) == b2;
    assert x[..|b1|] == b1 && y[..|b2|] == b2;
    if |n1| == |n2| {
      var t :| 0 <= t < |n1| && n1[t] != n2[t];
      assert x[|q| + t] == x[..|b1|][|q| + t] == n1[t];
      assert y[|q| + t] == y[..|b2|][|q| + t] == n2[t];
    } else if |n1| < |n2| {
      var d := |q| + |n1|;
      assert y[d] == y[..|b2|][d] == n2[|n1|] != Sep;
      assert x == b1 || x[d] == Sep;
    } else {
      var d := |q| + |n2|;
      assert x[d] == x[..|b1|][d] == n1[|n2|] != Sep;
      assert y == b2 || y[d] == Sep;
    }
  }

  /** Every blob listed under `entries` lies inside one of them. */
  lemma {:induction false} FilesUnder(prefix: string, entries: seq<Entry>, f: BlobFile)
    requires WellFormedTree(entries) && f in Files(prefix, entries)
    ensures exists k :: 0 <= k < |entries| && Under(f.path, Join(prefix, entries[k].name))
    decreases entries
  {
    var e := entries[0];
    FilesAppend(prefix, [e], entries[1..]);
    assert [e] + entries[1..] == entries;
    if f in Files(prefix, [e]) {
      match e.node
      case Blob(c) =>
        assert Under(f.path, Join(prefix, entries[0].name));
      case Tree(children) =>
        assert f in Files(Join(prefix, e.name), children);
        FilesUnder(Join(prefix, e.name), children, f);
        var k :| 0 <= k < |children| && Under(f.path, Join(Join(prefix, e.name), children[k].name));
        UnderParent(f.path, Join(prefix, e.name), children[k].name);
        assert Under(f.path, Join(prefix, entries[0].name));
    } else {
      FilesUnder(prefix, entries[1..], f);
      var k :| 0 <= k < |entries[1..]| && Under(f.path, Join(prefix, entries[1..][k].name));
      assert Under(f.path, Join(prefix, entries[k + 1].name));
    }
  }

  lemma WellFormedTail(entries: seq<Entry>)
    requires |entries| > 0 && WellFormedTree(entries)
    ensures WellFormedTree(entries[1..])
  {
    var tail := entries[1..];
    forall i, j | 0 <= i < j < |tail| ensures tail[i].name != tail[j].name {
      assert tail[i] == entries[i + 1] && tail[j] == entries[j + 1];
    }
  }

  /** A blob listed under the first entry and one listed under a later
      entry have different paths. */
  lemma HeadTailApart(prefix: string, entries: seq<Entry>, x: BlobFile, y: BlobFile)
    requires |entries| > 0 && WellFormedTree(entries)
    requires x in Files(prefix, [entries[0]]) && y in Files(prefix, entries[1..])
    ensures x.path != y.path
  {
    var e := entries[0];
    assert WellFormedTree([e]) by {
      assert [e][0] == e;
    }
    WellFormedTail(entries);
    FilesUnder(prefix, [e], x);
    FilesUnder(prefix, entries[1..], y);
    var k :| 0 <= k < |entries[1..]| && Under(y.path, Join(prefix, entries[1..][k].name));
    assert entries[1..][k] == entries[k + 1];
    SiblingsApart(prefix, e.name, entries[k + 1].name, x.path, y.path);
  }

  /** In a well-formed tree no two listed blobs share a path: each file of
      the snapshot is listed once. */
  lemma {:induction false} FilesPathsDistinct(prefix: string, entries: seq<Entry>)
    requires WellFormedTree(entries)
    ensures forall i, j :: 0 <= i < j < |Files(prefix, entries)| ==>
              Files(prefix, entries)[i].path != Files(prefix, entries)[j].path
    decreases entries
  {
    if entries != [] {
      var e := entries[0];
      var head := Files(prefix, [e]);
      var tail := Files(prefix, entries[1..]);
      FilesAppend(prefix, [e], entries[1..]);
      assert [e] + entries[1..] == entries;
      var fs := head + tail;
      WellFormedTail(entries);
      FilesPathsDistinct(prefix, entries[1..]);
      match e.node {
        case Blob(c) =>
        case Tree(children) =>
          FilesPathsDistinct(Join(prefix, e.name), children);
          assert head == Files(Join(prefix, e.name), children);
        case Other =>
      }
      forall i, j | 0 <= i < |head| <= j < |fs| ensures fs[i].path != fs[j].path {
        assert fs[i] == head[i] && fs[j] == tail[j - |head|];
        HeadTailApart(prefix, entries, fs[i], fs[j]);
      }
    }
  }

  type CommitId = nat

  /** A commit: its snapshot and its parents, the first one first. */
  datatype Commit = Commit(tree: seq<Entry>, parents: seq<CommitId>)

  /** The repository: a commit store and the commit HEAD resolves to, if any. */
  datatype Repo = Repo(commits: map<CommitId, Commit>, head: Option<CommitId>)

  /** HEAD, when set, names a stored commit; every parent is stored and was
      created before its child, so history has no cycles. */
  ghost predicate Valid(repo: Repo)
  {
    (repo.head.Some? ==> repo.head.value in repo.commits) &&
    forall id, j :: id in repo.commits && 0 <= j < |repo.commits[id].parents| ==>
      repo.commits[id].parents[j] in repo.commits && repo.commits[id].parents[j] < id
  }

  /** `commit.parent(0)`: the first parent, absent for a root commit. */
  function FirstParent(repo: Repo, id: CommitId): (p: Option<CommitId>)
    requires Valid(repo) && id in repo.commits
    ensures p.None? <==> repo.commits[id].parents == []
    ensures p.Some? ==> p.value == repo.commits[id].parents[0]
    ensures p.Some? ==> p.value in repo.commits && p.value < id
  {
    var parents := repo.commits[id].parents;
    if parents == [] then None else Some(parents[0])
  }

  /** `chain` starts anywhere, steps from each commit to its first parent,
      and stops at a root commit. */
  ghost predicate IsFirstParentWalk(repo: Repo, chain: seq<CommitId>)
    requires Valid(repo)
  {
    |chain| > 0 &&
    (forall i :: 0 <= i < |chain| ==> chain[i] in repo.commits) &&
    (forall i :: 0 <= i < |chain| - 1 ==> FirstParent(repo, chain[i]) == Some(chain[i + 1])) &&
    FirstParent(repo, chain[|chain| - 1]) == None
  }

  /** The commits met from `id` by following first parents down to a root:
      tip first, each once, never a non-first parent. */
  function FirstParentChain(repo: Repo, id: CommitId): (chain: seq<CommitId>)
    requires Valid(repo) && id in repo.commits
    ensures IsFirstParentWalk(repo, chain) && chain[0] == id
    ensures forall i, j :: 0 <= i < j < |chain| ==> chain[i] > chain[j]
    decreases id
  {
    match FirstParent(repo, id)
    case None => [id]
    case Some(p) => [id] + FirstParentChain(repo, p)
  }
}
