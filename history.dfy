/**
  The history walker: starting at HEAD, visit each commit along first
  parents only (the revision walk with first-parent simplification) and
  report whether it touched a test file.
 */
module History {
  import opened Wrappers
  import opened Repository
  import opened Commits

  datatype CommitClass = TestCommit | NotTestCommit

  /** One `[commit]` line of the report. */
  datatype CommitRecord = CommitRecord(id: CommitId, kind: CommitClass)

  function ClassOf(repo: Repo, id: CommitId): CommitClass
    requires Valid(repo) && id in repo.commits
  {
    if CommitContainsTestFile(repo, id) then TestCommit else NotTestCommit
  }

  /** The records for the commits `ids`, in that order. */
  function ChainReport(repo: Repo, ids: seq<CommitId>): seq<CommitRecord>
    requires Valid(repo) && forall i :: 0 <= i < |ids| ==> ids[i] in repo.commits
  {
    seq(|ids|, i requires 0 <= i < |ids| => CommitRecord(ids[i], ClassOf(repo, ids[i])))
  }

  /** The records still to come when the walk stands at `cursor`. */
  ghost function Remaining(repo: Repo, cursor: Option<CommitId>): seq<CommitRecord>
    requires Valid(repo) && (cursor.Some? ==> cursor.value in repo.commits)
  {
    match cursor
    case None => []
    case Some(id) => ChainReport(repo, FirstParentChain(repo, id))
  }

  /** One step of the walk: report `id`, then continue at its first parent. */
  lemma RemainingStep(repo: Repo, id: CommitId)
    requires Valid(repo) && id in repo.commits
    ensures Remaining(repo, Some(id)) == [CommitRecord(id, ClassOf(repo, id))] + Remaining(repo, FirstParent(repo, id))
  {
  }

  /** The walk's invariant survives reporting `id` and moving to its first parent. */
  lemma WalkStep(repo: Repo, records: seq<CommitRecord>, id: CommitId, target: seq<CommitRecord>)
    requires Valid(repo) && id in repo.commits
    requires records + Remaining(repo, Some(id)) == target
    ensures (records + [CommitRecord(id, ClassOf(repo, id))]) + Remaining(repo, FirstParent(repo, id)) == target
  {
    RemainingStep(repo, id);
  }

  /** `print_commit_stats`: walk from HEAD, one record per commit, stepping
      to the first parent until a root commit has been reported. */
  method CommitStats(repo: Repo) returns (r: Outcome<seq<CommitRecord>>)
    requires Valid(repo)
    ensures r.Aborted? <==> repo.head.None?
    ensures r.Completed? ==>
              r.records == ChainReport(repo, FirstParentChain(repo, repo.head.value))
  {
    if repo.head.None? {
      return Aborted;
    }
    var cursor := repo.head;
    var records: seq<CommitRecord> := [];
    while cursor.Some?
      invariant cursor.Some? ==> cursor.value in repo.commits
      invariant records + Remaining(repo, cursor) == Remaining(repo, repo.head)
      decreases if cursor.Some? then cursor.value + 1 else 0
    {
      var id := cursor.value;
      var kind := if CommitContainsTestFile(repo, id) then TestCommit else NotTestCommit;
      var next := FirstParent(repo, id);
      WalkStep(repo, records, id, Remaining(repo, repo.head));
      records := records + [CommitRecord(id, kind)];
      cursor := next;
    }
    return Completed(records);
  }

  /** Records carrying the ids of a first-parent walk, in order, follow
      first parents and repeat no commit. */
  lemma RecordsFollowWalk(repo: Repo, chain: seq<CommitId>, r: seq<CommitRecord>)
    requires Valid(repo) && IsFirstParentWalk(repo, chain)
    requires forall i, j :: 0 <= i < j < |chain| ==> chain[i] > chain[j]
    requires |r| == |chain| && forall i :: 0 <= i < |r| ==> r[i].id == chain[i]
    ensures |r| > 0 && r[0].id == chain[0]
    ensures forall i :: 0 < i < |r| ==> FirstParent(repo, r[i - 1].id) == Some(r[i].id)
    ensures FirstParent(repo, r[|r| - 1].id) == None
    ensures forall i, j :: 0 <= i < j < |r| ==> r[i].id != r[j].id
  {
    forall i | 0 < i < |r| ensures FirstParent(repo, r[i - 1].id) == Some(r[i].id) {
      var k := i - 1;
      assert r[k].id == chain[k] && r[k + 1].id == chain[k + 1];
      assert FirstParent(repo, chain[k]) == Some(chain[k + 1]);
    }
  }

  /** The walk reports HEAD first, then each reported commit's first parent,
      and ends with a root commit: a merge's other parents are reported only
      if they also lie on this line. No commit is reported twice. */
  lemma ReportFollowsFirstParents(repo: Repo)
    requires Valid(repo) && repo.head.Some?
    ensures var r := ChainReport(repo, FirstParentChain(repo, repo.head.value));
            |r| > 0 && r[0].id == repo.head.value &&
            (forall i :: 0 < i < |r| ==> FirstParent(repo, r[i - 1].id) == Some(r[i].id)) &&
            FirstParent(repo, r[|r| - 1].id) == None &&
            (forall i, j :: 0 <= i < j < |r| ==> r[i].id != r[j].id)
  {
    var chain := FirstParentChain(repo, repo.head.value);
    RecordsFollowWalk(repo, chain, ChainReport(repo, chain));
  }

  /** A commit is reported Test exactly when it is reported and its diff
      against its first parent touches a test path. */
  lemma ReportedTestIff(repo: Repo, id: CommitId)
    requires Valid(repo) && repo.head.Some?
    ensures CommitRecord(id, TestCommit) in ChainReport(repo, FirstParentChain(repo, repo.head.value)) <==>
              id in FirstParentChain(repo, repo.head.value) && CommitContainsTestFile(repo, id)
  {
    var chain := FirstParentChain(repo, repo.head.value);
    var r := ChainReport(repo, chain);
    if id in chain {
      var i :| 0 <= i < |chain| && chain[i] == id;
      assert r[i] == CommitRecord(id, ClassOf(repo, id));
    }
  }
}
