# git-test-annotate, modelled in Dafny

git-test-annotate reads a git repository and prints two reports:

- a `[file]` line for every blob of the tree HEAD points at, with the blob's
  relative path, its size in bytes and a class. The class is `Ignore` when
  the sniffed MIME type is not textual or is a gettext catalogue (`x-po`).
  Otherwise it is `Test` when the path contains `test` and `NotTest` when it
  does not.
- a `[commit]` line for every commit on the first-parent line from HEAD. The
  commit is `Test` when its diff against its first parent has a change whose
  new-side path contains `test`. A root commit is diffed against the empty
  tree.

The model follows the program's structure:

- `Text` holds substring search and the joining of a directory prefix with
  an entry name.
- `Classifier` holds the MIME decision (`is_text_file`), the path test
  (`is_test_file`) and the three-way file class.
- `Repository` is an in-memory stand-in for the git object store. Trees hold
  blobs, sub-trees and other entries. Commits are kept in a map keyed by
  commit id, and every parent id is smaller than its child's.
- `Snapshot` holds `print_size_stats` as a method. The method keeps the
  source's explicit stack of (prefix, entry) pairs and pops from the end. It
  is proved to report exactly the depth-first listing of the tree, read
  backwards.
- `Commits` holds the tree-to-tree diff stand-in, `diff_contains_test_file`
  and `commit_contains_test_file`.
- `History` holds `print_commit_stats` as a method. The method walks first
  parents from HEAD and is proved to report the first-parent chain in order.
- `Scenarios` rebuilds the repositories of the integration tests and proves
  the reports those tests expect.

A HEAD that cannot be resolved makes the program panic at an `unwrap`. Both
walkers model this as the outcome `Aborted`.

## Model

| member | source | states |
|---|---|---|
| Text.ContainsIff | src/main.rs:37 | the left-to-right scan finds a pattern exactly when the pattern occurs at some index of the string; the empty pattern is always found |
| Text.JoinContains | src/main.rs:69-71 | for a pattern without `/`, the path joined from a prefix and a name contains the pattern exactly when the prefix or the name does |
| Classifier.ClassifyIgnoreIff | src/main.rs:24-34 | a blob is Ignore exactly when `text` occurs nowhere in its MIME string or `x-po` occurs somewhere in it, whatever its path |
| Classifier.ClassifyKeptIff | src/main.rs:79-85 | a blob with a textual MIME type is Test exactly when `test` occurs in its path, and NotTest exactly when it occurs nowhere |
| Classifier.SniffFailureIgnored | src/main.rs:32-33 | a failed sniff reads as the empty MIME string, so the blob is Ignore whatever its path |
| Classifier.ClassifyJoined | src/main.rs:69-81 | a kept blob is Test exactly when its directory prefix or its own name mentions `test`, because the whole joined path is searched |
| Repository.FirstParent | src/main.rs:47-50 | the first parent is absent exactly when the commit has no parents; when present it is `parents[0]`, stored and older than the commit |
| Repository.FirstParentChain | src/main.rs:105-108 | the chain starts at the given commit, steps from each commit to its first parent, ends at a root commit and has strictly decreasing ids, so no commit repeats |
| Repository.FilesSound | src/main.rs:62-96 | every blob in the depth-first listing can be reached from the top of the tree by a sequence of entry names, and its path is those names joined with `/` |
| Repository.FilesComplete | src/main.rs:62-96 | every blob reachable by a sequence of entry names is in the listing, under the joined path |
| Repository.FilesPathsDistinct | src/main.rs:62-96 | in a tree whose names within each directory are non-empty, free of `/` and distinct, no two listed blobs share a path |
| Snapshot.SizeStats | src/main.rs:59-100 | aborts exactly when HEAD is unresolvable; otherwise returns one record per blob (joined path, byte length, class) in the reverse of the depth-first listing of HEAD's tree |
| Snapshot.ReportIsPermutation | src/main.rs:67-99 | the report is a permutation of the records of the depth-first listing: each blob is reported as often as the tree holds it |
| Snapshot.ReportedIffReachable | src/main.rs:62-96 | a record is in the report exactly when it describes a blob reachable through some sequence of entry names, with the joined path, the blob's size and its class |
| Snapshot.ReportPathsDistinct | src/main.rs:67-99 | in a well-formed tree the report never lists the same path twice |
| Commits.DiffContainsTestFile | src/main.rs:40-42 | a diff counts as a test diff exactly when some change record has a new-side path that mentions `test`; records without a new-side path never count |
| Commits.ParentTree | src/main.rs:47-50 | the old side of the diff is absent exactly for a root commit; otherwise it is the first parent's tree |
| Commits.ChangesNewPaths | src/main.rs:52-54 | the new-side paths of the diff's change records are exactly the paths of blobs that are new or changed relative to the old tree |
| Commits.RemovalsHaveNoNewPath | src/main.rs:52-54 | a record for a deleted blob has no new-side path |
| Commits.CommitTestIff | src/main.rs:44-57 | a commit is Test exactly when its tree holds a blob on a `test` path that its first parent's tree does not hold with the same content at that path |
| Commits.RootCommitTestIff | src/main.rs:47-54 | a root commit is Test exactly when some blob path of its tree mentions `test` |
| Commits.SameTreeAsFirstParent | src/main.rs:47-56 | a commit whose tree equals its first parent's tree is NotTest, whatever its other parents bring |
| Commits.OnlyFirstParentCounts | src/main.rs:47 | removing every parent but the first keeps the store well formed and leaves the commit's class unchanged |
| History.CommitStats | src/main.rs:102-116 | aborts exactly when HEAD is unresolvable; otherwise returns one record per commit of the first-parent chain from HEAD, in chain order, each with its class |
| History.ReportFollowsFirstParents | src/main.rs:105-108 | the report starts at HEAD, each record is the first parent of the one before, the last is a root commit, and no commit is reported twice |
| History.ReportedTestIff | src/main.rs:108-115 | a commit is reported Test exactly when it lies on the first-parent chain from HEAD and its diff touches a test path |
| Scenarios.PlainTextClasses | tests/integration.rs:86-88 | with MIME type `text/plain`, `test1.txt` is Test while `a33.txt` and `a2.txt` are NotTest |
| Scenarios.ListsFiles | tests/integration.rs:72-89 | the three-file snapshot is reported as test1.txt 4 Test, a33.txt 3 NotTest, a2.txt 2 NotTest |
| Scenarios.BinaryAndPoIgnored | src/main.rs:33 | the MIME types `image/png` and `text/x-po` make any path Ignore |
| Scenarios.IgnoresNonTextFiles | tests/integration.rs:91-108 | when the sniffer calls the two `.png` files non-text, they are reported as 8-byte Ignore and a2.txt as 2-byte NotTest |
| Scenarios.IgnoresPoFiles | tests/integration.rs:110-125 | the 19-byte gettext catalogue is Ignore and a2.txt is NotTest |
| Scenarios.LinearShape | tests/integration.rs:129-142 | the three-commit history is well formed and its first-parent chain from the tip is tip, middle, root |
| Scenarios.LinearClasses | tests/integration.rs:150-153 | changing test.txt and adding test.txt are Test; the root commit adding a.txt is NotTest |
| Scenarios.ListsCommits | tests/integration.rs:127-154 | the linear history is reported as three records: Test, Test, NotTest |
| Scenarios.MergedShape | tests/integration.rs:158-176 | the merge history is well formed and its first-parent chain is merge, mainline commit, root; the feature commits are not on it |
| Scenarios.MergedClasses | tests/integration.rs:185-188 | the merge is Test because test1.txt is new relative to its first parent; the two mainline commits are NotTest |
| Scenarios.IgnoresNonMainlineCommits | tests/integration.rs:156-189 | the merge history is reported as three records: merge Test, mainline NotTest, root NotTest |

## Left out

- MIME sniffing by libmagic is not modelled. It is a function parameter `sniff` from a blob's relative path to an optional MIME string. The program sniffs the checked-out file at the repository path joined with the relative path; the repository path is fixed for a run, so the relative path is the key. The MIME types the tests rely on are preconditions of the scenario lemmas.
- Failures to open or load the libmagic cookie, and the reading of the program argument, are not modelled. They are panics or I/O outside the decision.
- git2 is replaced by an in-memory store. Commit ids are natural numbers rather than SHA-1 hashes, and each parent id is smaller than its child's. This stands in for git's acyclic history and makes the walk terminate.
- The only failure modelled is an unresolvable HEAD, as the outcome `Aborted`. Other `unwrap` panics are not modelled: a missing commit or object, a failed diff, or a non-UTF-8 name or path. Paths are Dafny strings.
- A failing `commit.tree().ok()` or `p.tree().ok()`, which would diff against an absent tree, is not modelled: every stored commit has a tree.
- `diff_tree_to_tree` is replaced by a diff built from the two flattened trees. A blob that is new or changed yields a record with a new-side path. A deleted blob yields a record with no new-side path. Rename detection and type changes are not modelled.
- Commits.CommitTestIff: a commit whose only change deletes a file on a `test` path is NotTest in the model. In the program it is Test, because libgit2 copies the old path into the new-side path of a deletion record. The model gives a deletion record no new-side path, so a deletion never counts.
- Commits.RemovalsHaveNoNewPath: this holds of the in-memory diff only. In libgit2 a deletion record carries the deleted file's path on its new side too.
- Commits.ChangesNewPaths: file modes are not modelled. Blobs are compared by path and content only, so a change of mode alone yields no record. libgit2 reports it as a modified delta with a new-side path.
- Commits.CommitTestIff: for the same reason, a commit that only changes the mode of a file on a `test` path (making `tests/run.sh` executable, say) is Test in the program and NotTest in the model.
- Commits.SameTreeAsFirstParent: "the same tree" ignores modes, so the lemma does not cover a commit whose tree differs from its first parent's in modes alone.
- Text.Join matches `PathBuf::push` only for entry names free of `/`. A name ending in `/` or starting with `/` would be joined differently by `PathBuf`. Git forbids such names, but `Snapshot.SizeStats` and `Snapshot.ReportedIffReachable` are stated for all trees, so for such names their paths are `Join`'s, not `PathBuf`'s.
- Tree entries that are neither blobs nor trees (submodule links and others) are skipped by the snapshot walk, as in the source, and are left out of the diff.
- Commits.CommitTestIff: because submodule links are left out of the diff, a commit whose only change adds or updates a submodule at a path mentioning `test` is NotTest in the model. libgit2 reports such a change with a new-side path, so the program prints it as Test.
- The order in which libgit2 lists tree entries is taken as given by the entry sequence; only `Snapshot.ReportPathsDistinct` and `Repository.FilesPathsDistinct` assume git's rule that names within a directory are distinct.
- Output formatting (`println!` of `[file]` and `[commit]` lines) is modelled as sequences of records. `main`, which runs the two reports one after the other, is not modelled.
