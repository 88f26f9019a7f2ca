/**
  The repositories built by the integration tests, and what the two walkers
  report on them.
 */
module Scenarios {
  import opened Wrappers
  import opened Text
  import opened Classifier
  import opened Repository
  import opened Snapshot
  import opened Commits
  import opened History

  function File(name: string, content: seq<byte>): Entry
  {
    Entry(name, Blob(content))
  }

  // "a2", "a33", "test", "b2", "c2", "d2" as bytes.
  const A2: seq<byte> := [97, 50]
  const A33: seq<byte> := [97, 51, 51]
  const TestBytes: seq<byte> := [116, 101, 115, 116]
  const B2: seq<byte> := [98, 50]
  const C2: seq<byte> := [99, 50]
  const D2: seq<byte> := [100, 50]
  // "b2more": "b2" with "more" appended.
  const B2More: seq<byte> := [98, 50, 109, 111, 114, 101]
  // The eight bytes the tests write to their ".png" files: 0x80, "PNG", CR, LF,
  // 0x1A, LF. This is not the real PNG signature (which starts with 0x89), so
  // the scenario assumes only that the sniffer calls the files non-text.
  const Png: seq<byte> := [128, 80, 78, 71, 13, 10, 26, 10]
  // A 19-byte gettext catalogue header: "\nmsgid=\"\"\nmsgstr=\"\"".
  const PoHeader: seq<byte> := [10, 109, 115, 103, 105, 100, 61, 34, 34, 10, 109, 115, 103, 115, 116, 114, 61, 34, 34]

  /** The blobs of a directory holding only files, in entry order. */
  lemma {:induction false} FlatFiles(entries: seq<Entry>)
    requires forall i :: 0 <= i < |entries| ==> entries[i].node.Blob?
    ensures Files("", entries) ==
              seq(|entries|, i requires 0 <= i < |entries| => BlobFile(entries[i].name, entries[i].node.content))
  {
    if entries != [] {
      FlatFiles(entries[1..]);
    }
  }

  /** The MIME type the tests' text files are sniffed as is kept. */
  lemma PlainTextIsText()
    ensures IsTextFile(Some("text/plain"))
  {
    MissingCharNotContained("text/plain", "x-po", 1);
  }

  /** The paths of the tests that do not mention "test". */
  lemma NotTestPaths()
    ensures !IsTestPath("a33.txt") && !IsTestPath("a2.txt")
    ensures !IsTestPath("a.txt") && !IsTestPath("b.txt")
  {
    MissingCharNotContained("a33.txt", "test", 1);
    MissingCharNotContained("a2.txt", "test", 1);
    MissingCharNotContained("a.txt", "test", 1);
    MissingCharNotContained("b.txt", "test", 1);
  }

  /** How the files of the tests are classified. */
  lemma PlainTextClasses()
    ensures ClassifyFile("test1.txt", Some("text/plain")) == Test
    ensures ClassifyFile("a33.txt", Some("text/plain")) == NotTest
    ensures ClassifyFile("a2.txt", Some("text/plain")) == NotTest
  {
    PlainTextIsText();
    NotTestPaths();
    assert IsTestPath("test1.txt");
  }

  lemma SeqOfThree<T>(r: seq<T>, x: T, y: T, z: T)
    requires |r| == 3 && r[0] == x && r[1] == y && r[2] == z
    ensures r == [x, y, z]
  {
  }

  lemma ReportOfThree(a: BlobFile, b: BlobFile, c: BlobFile, sniff: string -> Option<string>)
    ensures Report(Reverse([a, b, c]), sniff) == [Describe(c, sniff), Describe(b, sniff), Describe(a, sniff)]
  {
    assert Reverse([a, b, c]) == [c, b, a];
  }

  lemma ListsFiles(sniff: string -> Option<string>)
    requires sniff("a2.txt") == sniff("a33.txt") == sniff("test1.txt") == Some("text/plain")
    ensures var root := [File("a2.txt", A2), File("a33.txt", A33), File("test1.txt", TestBytes)];
            Report(Reverse(Files("", root)), sniff) ==
              [FileRecord("test1.txt", 4, Test), FileRecord("a33.txt", 3, NotTest), FileRecord("a2.txt", 2, NotTest)]
  {
    var root := [File("a2.txt", A2), File("a33.txt", A33), File("test1.txt", TestBytes)];
    FlatFiles(root);
    var fs := [BlobFile("a2.txt", A2), BlobFile("a33.txt", A33), BlobFile("test1.txt", TestBytes)];
    assert Files("", root) == fs;
    PlainTextClasses();
    ReportOfThree(fs[0], fs[1], fs[2], sniff);
  }

  /** A binary MIME type such as `image/png`, and the gettext catalogue
      type, send any path to Ignore. */
  lemma BinaryAndPoIgnored(path: string)
    ensures ClassifyFile(path, Some("image/png")) == Ignore
    ensures ClassifyFile(path, Some("text/x-po")) == Ignore
  {
    PngIsNotText();
    PoIsNotKept();
  }

  lemma PngIsNotText()
    ensures !IsTextFile(Some("image/png"))
  {
    MissingCharNotContained("image/png", "text", 0);
  }

  lemma PoIsNotKept()
    ensures !IsTextFile(Some("text/x-po"))
  {
    assert "text/x-po"[5..9] == "x-po";
    OccursContains("text/x-po", "x-po", 5);
  }

  /** Files sniffed as non-text are Ignore whatever their names; a text
      file beside them is still classified by its path. */
  lemma IgnoresNonTextFiles(sniff: string -> Option<string>)
    requires sniff("a2.txt") == Some("text/plain")
    requires !IsTextFile(sniff("bla.png")) && !IsTextFile(sniff("test1.png"))
    ensures var root := [File("a2.txt", A2), File("bla.png", Png), File("test1.png", Png)];
            Report(Reverse(Files("", root)), sniff) ==
              [FileRecord("test1.png", 8, Ignore), FileRecord("bla.png", 8, Ignore), FileRecord("a2.txt", 2, NotTest)]
  {
    var root := [File("a2.txt", A2), File("bla.png", Png), File("test1.png", Png)];
    var fs := [BlobFile("a2.txt", A2), BlobFile("bla.png", Png), BlobFile("test1.png", Png)];
    assert Files("", root) == fs by { FlatFiles(root); }
    ReportOfThree(fs[0], fs[1], fs[2], sniff);
    assert Describe(fs[0], sniff) == FileRecord("a2.txt", 2, NotTest) by { PlainTextClasses(); }
    assert Describe(fs[1], sniff) == FileRecord("bla.png", 8, Ignore);
    assert Describe(fs[2], sniff) == FileRecord("test1.png", 8, Ignore);
  }

  /** A gettext catalogue is textual yet Ignore. */
  lemma IgnoresPoFiles(sniff: string -> Option<string>)
    requires sniff("a2.txt") == Some("text/plain")
    requires sniff("bla.po") == Some("text/x-po")
    ensures var root := [File("a2.txt", A2), File("bla.po", PoHeader)];
            Report(Reverse(Files("", root)), sniff) ==
              [FileRecord("bla.po", 19, Ignore), FileRecord("a2.txt", 2, NotTest)]
  {
    var root := [File("a2.txt", A2), File("bla.po", PoHeader)];
    var fs := [BlobFile("a2.txt", A2), BlobFile("bla.po", PoHeader)];
    assert Files("", root) == fs by { FlatFiles(root); }
    assert Reverse(fs) == [fs[1], fs[0]];
    assert Describe(fs[0], sniff) == FileRecord("a2.txt", 2, NotTest) by { PlainTextClasses(); }
    assert Describe(fs[1], sniff) == FileRecord("bla.po", 19, Ignore) by { BinaryAndPoIgnored("bla.po"); }
  }

  lemma ChainReportOfThree(repo: Repo, a: CommitId, b: CommitId, c: CommitId)
    requires Valid(repo) && a in repo.commits && b in repo.commits && c in repo.commits
    ensures ChainReport(repo, [a, b, c]) ==
              [CommitRecord(a, ClassOf(repo, a)), CommitRecord(b, ClassOf(repo, b)), CommitRecord(c, ClassOf(repo, c))]
  {
    var ids := [a, b, c];
    assert ids[0] == a && ids[1] == b && ids[2] == c;
    SeqOfThree(ChainReport(repo, ids),
      CommitRecord(a, ClassOf(repo, a)), CommitRecord(b, ClassOf(repo, b)), CommitRecord(c, ClassOf(repo, c)));
  }

  /** The repository of the linear-history test: add a.txt, add test.txt,
      then change test.txt and add c.txt. */
  function Linear(): Repo
  {
    Repo(map[
        0 := Commit([File("a.txt", A2)], []),
        1 := Commit([File("a.txt", A2), File("test.txt", B2)], [0]),
        2 := Commit([File("a.txt", A2), File("c.txt", C2), File("test.txt", B2More)], [1])],
      Some(2))
  }

  lemma LinearShape()
    ensures Valid(Linear()) && FirstParentChain(Linear(), 2) == [2, 1, 0]
  {
    assert Valid(Linear());
  }

  /** A commit adding or changing a blob on a test path is Test. */
  lemma AddedTestFile(repo: Repo, id: CommitId, f: BlobFile)
    requires Valid(repo) && id in repo.commits
    requires f in Files("", repo.commits[id].tree) && IsTestPath(f.path)
    requires f !in Files("", ParentTree(repo, id).GetOr([]))
    ensures CommitContainsTestFile(repo, id)
  {
    CommitTestIff(repo, id);
  }

  /** Changing test.txt (and adding c.txt) makes the tip Test. */
  lemma LinearTip()
    ensures Valid(Linear()) && CommitContainsTestFile(Linear(), 2)
  {
    var repo := Linear();
    LinearShape();
    var t1 := repo.commits[1].tree;
    var t2 := repo.commits[2].tree;
    assert ParentTree(repo, 2) == Some(t1);
    var f1 := [BlobFile("a.txt", A2), BlobFile("test.txt", B2)];
    var f2 := [BlobFile("a.txt", A2), BlobFile("c.txt", C2), BlobFile("test.txt", B2More)];
    assert Files("", t1) == f1 by { FlatFiles(t1); }
    assert Files("", t2) == f2 by { FlatFiles(t2); }
    assert IsTestPath("test.txt");
    assert f2[2] in f2 && f2[2] !in f1;
    AddedTestFile(repo, 2, f2[2]);
  }

  /** Adding test.txt makes the middle commit Test. */
  lemma LinearMiddle()
    ensures Valid(Linear()) && CommitContainsTestFile(Linear(), 1)
  {
    var repo := Linear();
    LinearShape();
    var t0 := repo.commits[0].tree;
    var t1 := repo.commits[1].tree;
    assert ParentTree(repo, 1) == Some(t0);
    var f0 := [BlobFile("a.txt", A2)];
    var f1 := [BlobFile("a.txt", A2), BlobFile("test.txt", B2)];
    assert Files("", t0) == f0 by { FlatFiles(t0); }
    assert Files("", t1) == f1 by { FlatFiles(t1); }
    assert IsTestPath("test.txt");
    assert f1[1] in f1 && f1[1] !in f0;
    AddedTestFile(repo, 1, f1[1]);
  }

  /** A root commit holding only a.txt is NotTest. */
  lemma RootWithoutTestFile(repo: Repo, id: CommitId)
    requires Valid(repo) && id in repo.commits && repo.commits[id].parents == []
    requires repo.commits[id].tree == [File("a.txt", A2)]
    ensures !CommitContainsTestFile(repo, id)
  {
    var t := repo.commits[id].tree;
    assert Files("", t) == [BlobFile("a.txt", A2)] by { FlatFiles(t); }
    NotTestPaths();
    RootCommitTestIff(repo, id);
  }

  lemma LinearClasses()
    ensures Valid(Linear())
    ensures CommitContainsTestFile(Linear(), 2)
    ensures CommitContainsTestFile(Linear(), 1)
    ensures !CommitContainsTestFile(Linear(), 0)
  {
    LinearTip();
    LinearMiddle();
    RootWithoutTestFile(Linear(), 0);
  }

  /** Three commits in a line are reported tip first: Test, Test, NotTest. */
  lemma ListsCommits()
    ensures Valid(Linear()) &&
            ChainReport(Linear(), FirstParentChain(Linear(), 2)) ==
              [CommitRecord(2, TestCommit), CommitRecord(1, TestCommit), CommitRecord(0, NotTestCommit)]
  {
    LinearShape();
    LinearClasses();
    ChainReportOfThree(Linear(), 2, 1, 0);
  }

  /** The repository of the merge test: a.txt, b.txt on the mainline; c.txt
      then test1.txt on a feature branch; a non-fast-forward merge whose
      first parent is the mainline tip. */
  function Merged(): Repo
  {
    var t0 := [File("a.txt", A2)];
    var t1 := [File("a.txt", A2), File("b.txt", B2)];
    var t2 := [File("a.txt", A2), File("b.txt", B2), File("c.txt", C2)];
    var t3 := [File("a.txt", A2), File("b.txt", B2), File("c.txt", C2), File("test1.txt", D2)];
    Repo(map[0 := Commit(t0, []), 1 := Commit(t1, [0]), 2 := Commit(t2, [1]),
             3 := Commit(t3, [2]), 4 := Commit(t3, [1, 3])],
      Some(4))
  }

  lemma MergedShape()
    ensures Valid(Merged()) && FirstParentChain(Merged(), 4) == [4, 1, 0]
  {
    assert Valid(Merged());
  }

  /** The merge is Test: test1.txt is new relative to its first parent. */
  lemma MergeIsTest()
    ensures Valid(Merged()) && CommitContainsTestFile(Merged(), 4)
  {
    var repo := Merged();
    MergedShape();
    var t1 := repo.commits[1].tree;
    var t4 := repo.commits[4].tree;
    assert ParentTree(repo, 4) == Some(t1);
    var f1 := [BlobFile("a.txt", A2), BlobFile("b.txt", B2)];
    var f4 := [BlobFile("a.txt", A2), BlobFile("b.txt", B2), BlobFile("c.txt", C2), BlobFile("test1.txt", D2)];
    assert Files("", t1) == f1 by { FlatFiles(t1); }
    assert Files("", t4) == f4 by { FlatFiles(t4); }
    assert IsTestPath("test1.txt");
    assert f4[3] in f4 && f4[3] !in f1;
    AddedTestFile(repo, 4, f4[3]);
  }

  /** Adding b.txt is NotTest. */
  lemma MainlineNotTest()
    ensures Valid(Merged()) && !CommitContainsTestFile(Merged(), 1)
  {
    var repo := Merged();
    MergedShape();
    var t0 := repo.commits[0].tree;
    var t1 := repo.commits[1].tree;
    assert ParentTree(repo, 1) == Some(t0);
    var f0 := [BlobFile("a.txt", A2)];
    var f1 := [BlobFile("a.txt", A2), BlobFile("b.txt", B2)];
    assert Files("", t0) == f0 by { FlatFiles(t0); }
    assert Files("", t1) == f1 by { FlatFiles(t1); }
    NotTestPaths();
    assert f1[0] in f0;
    CommitTestIff(repo, 1);
  }

  lemma MergedClasses()
    ensures Valid(Merged())
    ensures CommitContainsTestFile(Merged(), 4)
    ensures !CommitContainsTestFile(Merged(), 1)
    ensures !CommitContainsTestFile(Merged(), 0)
  {
    MergeIsTest();
    MainlineNotTest();
    RootWithoutTestFile(Merged(), 0);
  }

  /** Only the merge and the two mainline commits are reported; the merge
      is Test because test1.txt is new relative to its first parent, and
      the feature-branch commits 2 and 3 never appear. */
  lemma IgnoresNonMainlineCommits()
    ensures Valid(Merged()) &&
            ChainReport(Merged(), FirstParentChain(Merged(), 4)) ==
              [CommitRecord(4, TestCommit), CommitRecord(1, NotTestCommit), CommitRecord(0, NotTestCommit)]
  {
    MergedShape();
    MergedClasses();
    ChainReportOfThree(Merged(), 4, 1, 0);
  }
}
