/**
  The commit classifier: a commit's tree is diffed against its first
  parent's tree (against no tree at all for a root commit), and the commit
  is Test when some change record has a new-side path mentioning "test".
 */
module Commits {
  import opened Wrappers
  import opened Classifier
  import opened Repository

  /** One change record of a tree-to-tree diff: the path on each side, absent
      on the side where the file does not exist. */
  datatype Delta = Delta(oldPath: Option<string>, newPath: Option<string>)

  /** Some blob of `files` sits at `path`. */
  predicate HasPath(files: seq<BlobFile>, path: string)
  {
    exists i :: 0 <= i < |files| && files[i].path == path
  }

  /** Added and modified blobs of `after`: those not present, with the same
      content at the same path, in `before`. */
  function Changes(before: seq<BlobFile>, after: seq<BlobFile>): seq<Delta>
  {
    if after == [] then []
    else
      ChangeOf(before, after[0]) + Changes(before, after[1..])
  }

  /** Deleted blobs of `before`: their path is gone from `after`, so the
      record has no new-side path. */
  function Removals(before: seq<BlobFile>, after: seq<BlobFile>): seq<Delta>
  {
    if before == [] then []
    else
      (if HasPath(after, before[0].path) then [] else [Delta(Some(before[0].path), None)])
      + Removals(before[1..], after)
  }

  /** `diff_tree_to_tree` on the blobs of the two snapshots; an absent old
      tree is the empty tree. */
  function DiffTrees(oldTree: Option<seq<Entry>>, newTree: seq<Entry>): seq<Delta>
  {
    var before := Files("", oldTree.GetOr([]));
    var after := Files("", newTree);
    Changes(before, after) + Removals(before, after)
  }

  /** The predicate handed to `any` for each delta (`map_or(false, ...)`). */
  predicate DeltaTouchesTest(d: Delta)
  {
    match d.newPath
    case None => false
    case Some(p) => IsTestPath(p)
  }

  /** `diff_contains_test_file`: does any delta have a new-side path that
      mentions "test"? */
  function DiffContainsTestFile(deltas: seq<Delta>): (r: bool)
    ensures r <==> exists i :: 0 <= i < |deltas| && deltas[i].newPath.Some? && IsTestPath(deltas[i].newPath.value)
  {
    if deltas == [] then false
    else DeltaTouchesTest(deltas[0]) || DiffContainsTestFile(deltas[1..])
  }

  /** The tree of the first parent, when there is one. */
  function ParentTree(repo: Repo, id: CommitId): (t: Option<seq<Entry>>)
    requires Valid(repo) && id in repo.commits
    ensures t.None? <==> repo.commits[id].parents == []
    ensures t.Some? ==> t.value == repo.commits[repo.commits[id].parents[0]].tree
  {
    match FirstParent(repo, id)
    case None => None
    case Some(p) => Some(repo.commits[p].tree)
  }

  /** `commit_contains_test_file`. */
  predicate CommitContainsTestFile(repo: Repo, id: CommitId)
    requires Valid(repo) && id in repo.commits
  {
    DiffContainsTestFile(DiffTrees(ParentTree(repo, id), repo.commits[id].tree))
  }

  /** The change record for the first blob of `after`, if it changed. */
  function ChangeOf(before: seq<BlobFile>, f: BlobFile): seq<Delta>
  {
    if f in before then [] else [Delta(if HasPath(before, f.path) then Some(f.path) else None, Some(f.path))]
  }

  lemma ChangesHead(before: seq<BlobFile>, after: seq<BlobFile>)
    requires after != []
    ensures Changes(before, after) == ChangeOf(before, after[0]) + Changes(before, after[1..])
  {
  }

  /** Every new-side path of a change belongs to an added or modified blob. */
  lemma {:induction false} ChangeNewPathSound(before: seq<BlobFile>, after: seq<BlobFile>, i: int, p: string)
    requires 0 <= i < |Changes(before, after)| && Changes(before, after)[i].newPath == Some(p)
    ensures exists f :: f in after && f !in before && f.path == p
    decreases after
  {
    ChangesHead(before, after);
    var here := ChangeOf(before, after[0]);
    if i < |here| {
      assert after[0] in after;
    } else {
      assert Changes(before, after)[i] == Changes(before, after[1..])[i - |here|];
      ChangeNewPathSound(before, after[1..], i - |here|, p);
      var g :| g in after[1..] && g !in before && g.path == p;
      assert g in after;
    }
  }

  /** Every added or modified blob has a change record with its path. */
  lemma {:induction false} ChangeNewPathComplete(before: seq<BlobFile>, after: seq<BlobFile>, f: BlobFile)
    requires f in after && f !in before
    ensures exists i :: 0 <= i < |Changes(before, after)| && Changes(before, after)[i].newPath == Some(f.path)
    decreases after
  {
    ChangesHead(before, after);
    var here := ChangeOf(before, after[0]);
    var ch := Changes(before, after);
    if f == after[0] {
      assert ch[0].newPath == Some(f.path);
    } else {
      assert after == [after[0]] + after[1..];
      assert f in after[1..];
      ChangeNewPathComplete(before, after[1..], f);
      var tail := Changes(before, after[1..]);
      var i :| 0 <= i < |tail| && tail[i].newPath == Some(f.path);
      assert ch[|here| + i] == tail[i];
    }
  }

  /** The new-side paths of the changes are exactly the paths of the blobs
      of `after` that are not in `before` unchanged. */
  lemma ChangesNewPaths(before: seq<BlobFile>, after: seq<BlobFile>, p: string)
    ensures (exists i :: 0 <= i < |Changes(before, after)| && Changes(before, after)[i].newPath == Some(p))
            <==> (exists f :: f in after && f !in before && f.path == p)
  {
    if exists i :: 0 <= i < |Changes(before, after)| && Changes(before, after)[i].newPath == Some(p) {
      var i :| 0 <= i < |Changes(before, after)| && Changes(before, after)[i].newPath == Some(p);
      ChangeNewPathSound(before, after, i, p);
    }
    if exists f :: f in after && f !in before && f.path == p {
      var f :| f in after && f !in before && f.path == p;
      ChangeNewPathComplete(before, after, f);
    }
  }

  /** No deletion record has a new-side path. */
  lemma {:induction false} RemovalsHaveNoNewPath(before: seq<BlobFile>, after: seq<BlobFile>)
    ensures forall i :: 0 <= i < |Removals(before, after)| ==> Removals(before, after)[i].newPath.None?
  {
    if before != [] {
      RemovalsHaveNoNewPath(before[1..], after);
    }
  }

  /** A test-path delta of a diff is the change record of an added or
      modified blob. */
  lemma DiffTestSound(before: seq<BlobFile>, after: seq<BlobFile>)
    requires DiffContainsTestFile(Changes(before, after) + Removals(before, after))
    ensures exists f :: f in after && IsTestPath(f.path) && f !in before
  {
    var ch := Changes(before, after);
    var ds := ch + Removals(before, after);
    RemovalsHaveNoNewPath(before, after);
    var i :| 0 <= i < |ds| && ds[i].newPath.Some? && IsTestPath(ds[i].newPath.value);
    var p := ds[i].newPath.value;
    assert i < |ch|;
    assert ch[i].newPath == Some(p);
    ChangeNewPathSound(before, after, i, p);
    var f :| f in after && f !in before && f.path == p;
    assert f in after && IsTestPath(f.path) && f !in before;
  }

  /** An added or modified blob on a test path makes the diff a test diff. */
  lemma DiffTestComplete(before: seq<BlobFile>, after: seq<BlobFile>, f: BlobFile)
    requires f in after && IsTestPath(f.path) && f !in before
    ensures DiffContainsTestFile(Changes(before, after) + Removals(before, after))
  {
    var ch := Changes(before, after);
    var ds := ch + Removals(before, after);
    ChangeNewPathComplete(before, after, f);
    var i :| 0 <= i < |ch| && ch[i].newPath == Some(f.path);
    assert ds[i] == ch[i];
  }

  /** A commit is Test exactly when its tree holds a blob whose path
      mentions "test" and which its first parent's tree does not hold with
      the same content at that path; deletions never count. */
  lemma CommitTestIff(repo: Repo, id: CommitId)
    requires Valid(repo) && id in repo.commits
    ensures CommitContainsTestFile(repo, id) <==>
              exists f :: f in Files("", repo.commits[id].tree) && IsTestPath(f.path) &&
                f !in Files("", ParentTree(repo, id).GetOr([]))
  {
    var before := Files("", ParentTree(repo, id).GetOr([]));
    var after := Files("", repo.commits[id].tree);
    assert DiffTrees(ParentTree(repo, id), repo.commits[id].tree) == Changes(before, after) + Removals(before, after);
    if CommitContainsTestFile(repo, id) {
      DiffTestSound(before, after);
    }
    if exists f :: f in after && IsTestPath(f.path) && f !in before {
      var f :| f in after && IsTestPath(f.path) && f !in before;
      DiffTestComplete(before, after, f);
    }
  }

  /** A root commit is diffed against the empty tree, so every one of its
      blobs counts as added: it is Test exactly when some path of its tree
      mentions "test". */
  lemma RootCommitTestIff(repo: Repo, id: CommitId)
    requires Valid(repo) && id in repo.commits && repo.commits[id].parents == []
    ensures CommitContainsTestFile(repo, id) <==>
              exists f :: f in Files("", repo.commits[id].tree) && IsTestPath(f.path)
  {
    CommitTestIff(repo, id);
    assert Files("", ParentTree(repo, id).GetOr([])) == [];
  }

  /** A commit whose tree equals its first parent's tree is NotTest, whatever
      its other parents brought in: a merge shows only what differs from
      the first parent. */
  lemma SameTreeAsFirstParent(repo: Repo, id: CommitId)
    requires Valid(repo) && id in repo.commits && repo.commits[id].parents != []
    requires repo.commits[repo.commits[id].parents[0]].tree == repo.commits[id].tree
    ensures !CommitContainsTestFile(repo, id)
  {
    CommitTestIff(repo, id);
  }

  /** Only the first parent is consulted: dropping every other parent of a
      commit leaves its classification unchanged. */
  lemma OnlyFirstParentCounts(repo: Repo, id: CommitId)
    requires Valid(repo) && id in repo.commits && |repo.commits[id].parents| > 1
    ensures var c := repo.commits[id];
            var trimmed := repo.(commits := repo.commits[id := Commit(c.tree, c.parents[..1])]);
            Valid(trimmed) && CommitContainsTestFile(trimmed, id) == CommitContainsTestFile(repo, id)
  {
    var c := repo.commits[id];
    var trimmed := repo.(commits := repo.commits[id := Commit(c.tree, c.parents[..1])]);
    assert c.parents[0] != id;
    assert ParentTree(trimmed, id) == ParentTree(repo, id);
  }
}
