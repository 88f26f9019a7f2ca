/**
  The snapshot walker: lists every blob of the tree HEAD points at with its
  size and class, expanding sub-trees through an explicit stack of
  (directory prefix, entry) pairs instead of recursion.
 */
module Snapshot {
  import opened Wrappers
  import opened Text
  import opened Classifier
  import opened Repository

  /** One `[file]` line of the report. */
  datatype FileRecord = FileRecord(path: string, size: nat, kind: FileClass)

  /** The record of a blob; the MIME oracle is asked about its relative path. */
  function Describe(f: BlobFile, sniff: string -> Option<string>): FileRecord
  {
    FileRecord(f.path, |f.content|, ClassifyFile(f.path, sniff(f.path)))
  }

  /** The `[file]` records of `files`, in that order. */
  function Report(files: seq<BlobFile>, sniff: string -> Option<string>): seq<FileRecord>
  {
    seq(|files|, i requires 0 <= i < |files| => Describe(files[i], sniff))
  }

  /** `s` read from its last element to its first. */
  function Reverse<T>(s: seq<T>): seq<T>
  {
    seq(|s|, i requires 0 <= i < |s| => s[|s| - 1 - i])
  }

  /** A pending stack element: a tree entry and the directory it sits in. */
  datatype Item = Item(prefix: string, entry: Entry)

  /** The entries of a tree as stack elements under `prefix`, in tree order. */
  function Expand(prefix: string, entries: seq<Entry>): seq<Item>
  {
    seq(|entries|, i requires 0 <= i < |entries| => Item(prefix, entries[i]))
  }

  /** The blobs still to be found under the stack elements, bottom first. */
  function Pending(items: seq<Item>): seq<BlobFile>
  {
    if items == [] then [] else Files(items[0].prefix, [items[0].entry]) + Pending(items[1..])
  }

  /** The blobs pending under a single stack element. */
  lemma PendingOne(item: Item)
    ensures Pending([item]) ==
              match item.entry.node
              case Blob(content) => [BlobFile(Join(item.prefix, item.entry.name), content)]
              case Tree(children) => Files(Join(item.prefix, item.entry.name), children)
              case Other => []
  {
    var e := item.entry;
    assert [item][0] == item && [item][1..] == [];
    assert [e][0] == e && [e][1..] == [];
    assert Pending([item]) == Files(item.prefix, [e]) + Pending([]);
    assert Files(item.prefix, [e]) == Files(item.prefix, [e]) + Files(item.prefix, []);
  }

  lemma {:induction false} PendingAppend(a: seq<Item>, b: seq<Item>)
    ensures Pending(a + b) == Pending(a) + Pending(b)
  {
    if a == [] {
      assert a + b == b;
    } else {
      assert (a + b)[0] == a[0];
      assert (a + b)[1..] == a[1..] + b;
      PendingAppend(a[1..], b);
    }
  }

  /** Expanding a tree into the stack leaves the same blobs pending. */
  lemma {:induction false} PendingExpand(prefix: string, entries: seq<Entry>)
    ensures Pending(Expand(prefix, entries)) == Files(prefix, entries)
  {
    if entries != [] {
      var items := Expand(prefix, entries);
      assert items[1..] == Expand(prefix, entries[1..]);
      PendingExpand(prefix, entries[1..]);
      FilesAppend(prefix, [entries[0]], entries[1..]);
      assert [entries[0]] + entries[1..] == entries;
    }
  }

  /** Number of tree entries at and below `entries`: bounds the walk. */
  function Size(entries: seq<Entry>): nat
  {
    if entries == [] then 0
    else
      1 + (match entries[0].node case Tree(children) => Size(children) case _ => 0)
      + Size(entries[1..])
  }

  function Weight(items: seq<Item>): nat
  {
    if items == [] then 0 else Size([items[0].entry]) + Weight(items[1..])
  }

  lemma {:induction false} WeightAppend(a: seq<Item>, b: seq<Item>)
    ensures Weight(a + b) == Weight(a) + Weight(b)
  {
    if a == [] {
      assert a + b == b;
    } else {
      assert (a + b)[0] == a[0];
      assert (a + b)[1..] == a[1..] + b;
      WeightAppend(a[1..], b);
    }
  }

  lemma {:induction false} WeightExpand(prefix: string, entries: seq<Entry>)
    ensures Weight(Expand(prefix, entries)) == Size(entries)
  {
    if entries != [] {
      assert [entries[0]][0] == entries[0] && [entries[0]][1..] == [];
      assert Size([entries[0]]) == Size([entries[0]]) + Size([]);
      assert Expand(prefix, entries)[1..] == Expand(prefix, entries[1..]);
      WeightExpand(prefix, entries[1..]);
    }
  }

  lemma ReverseAppend<T>(a: seq<T>, b: seq<T>)
    ensures Reverse(a + b) == Reverse(b) + Reverse(a)
  {
  }

  lemma ReportAppend(files: seq<BlobFile>, f: BlobFile, sniff: string -> Option<string>)
    ensures Report(files + [f], sniff) == Report(files, sniff) + [Describe(f, sniff)]
  {
  }

  /** Popping the top element: what stays pending and how much weight is left. */
  lemma PopStep(entries: seq<Item>, rest: seq<Item>, item: Item)
    requires |entries| > 0 && rest == entries[..|entries| - 1] && item == entries[|entries| - 1]
    ensures Reverse(Pending(entries)) == Reverse(Pending([item])) + Reverse(Pending(rest))
    ensures Weight(entries) == Weight(rest) + Size([item.entry])
    ensures Pending([item]) ==
              match item.entry.node
              case Blob(content) => [BlobFile(Join(item.prefix, item.entry.name), content)]
              case Tree(children) => Files(Join(item.prefix, item.entry.name), children)
              case Other => []
    ensures item.entry.node.Tree? ==> Size([item.entry]) == 1 + Size(item.entry.node.children)
  {
    assert entries == rest + [item];
    PendingAppend(rest, [item]);
    ReverseAppend(Pending(rest), Pending([item]));
    WeightAppend(rest, [item]);
    PendingOne(item);
    assert [item.entry][0] == item.entry && [item.entry][1..] == [];
  }

  /** Pushing the entries of a tree keeps its blobs pending and its weight,
      less the tree entry itself. */
  lemma PushStep(rest: seq<Item>, prefix: string, children: seq<Entry>)
    ensures Reverse(Pending(rest + Expand(prefix, children))) ==
              Reverse(Files(prefix, children)) + Reverse(Pending(rest))
    ensures Weight(rest + Expand(prefix, children)) == Weight(rest) + Size(children)
  {
    var pushed := Expand(prefix, children);
    PendingAppend(rest, pushed);
    ReverseAppend(Pending(rest), Pending(pushed));
    PendingExpand(prefix, children);
    WeightAppend(rest, pushed);
    WeightExpand(prefix, children);
  }

  /** The walk's invariant survives popping a blob and reporting it. */
  lemma BlobStep(visited: seq<BlobFile>, entries: seq<Item>, target: seq<BlobFile>, content: seq<byte>)
    requires |entries| > 0 && entries[|entries| - 1].entry.node == Blob(content)
    requires visited + Reverse(Pending(entries)) == target
    ensures var item := entries[|entries| - 1];
            var rest := entries[..|entries| - 1];
            (visited + [BlobFile(Join(item.prefix, item.entry.name), content)]) + Reverse(Pending(rest)) == target &&
            Weight(rest) < Weight(entries)
  {
    var item := entries[|entries| - 1];
    var rest := entries[..|entries| - 1];
    PopStep(entries, rest, item);
    assert [item.entry][0] == item.entry && [item.entry][1..] == [];
  }

  /** The walk's invariant survives popping a tree and pushing its entries. */
  lemma TreeStep(visited: seq<BlobFile>, entries: seq<Item>, target: seq<BlobFile>, children: seq<Entry>)
    requires |entries| > 0 && entries[|entries| - 1].entry.node == Tree(children)
    requires visited + Reverse(Pending(entries)) == target
    ensures var item := entries[|entries| - 1];
            var rest := entries[..|entries| - 1];
            var pushed := rest + Expand(Join(item.prefix, item.entry.name), children);
            visited + Reverse(Pending(pushed)) == target && Weight(pushed) < Weight(entries)
  {
    var item := entries[|entries| - 1];
    var rest := entries[..|entries| - 1];
    PopStep(entries, rest, item);
    PushStep(rest, Join(item.prefix, item.entry.name), children);
  }

  /** The walk's invariant survives dropping an entry that is neither. */
  lemma OtherStep(visited: seq<BlobFile>, entries: seq<Item>, target: seq<BlobFile>)
    requires |entries| > 0 && entries[|entries| - 1].entry.node == Other
    requires visited + Reverse(Pending(entries)) == target
    ensures var rest := entries[..|entries| - 1];
            visited + Reverse(Pending(rest)) == target && Weight(rest) < Weight(entries)
  {
    var item := entries[|entries| - 1];
    var rest := entries[..|entries| - 1];
    PopStep(entries, rest, item);
    assert Pending([item]) == [];
    assert Reverse(Pending(entries)) == Reverse(Pending(rest));
    assert [item.entry][0] == item.entry && [item.entry][1..] == [];
    assert Size([item.entry]) == 1 + Size([]);
  }

  /** `print_size_stats`: resolve HEAD, seed the stack with the top-level
      entries, then pop one element at a time; a blob is reported, a tree
      pushes its entries under the joined path, anything else is dropped.
      The last entry pushed is the first popped, so the report is the
      depth-first listing of the tree read backwards. */
  method SizeStats(repo: Repo, sniff: string -> Option<string>) returns (r: Outcome<seq<FileRecord>>)
    requires Valid(repo)
    ensures r.Aborted? <==> repo.head.None?
    ensures r.Completed? ==>
              r.records == Report(Reverse(Files("", repo.commits[repo.head.value].tree)), sniff)
  {
    if repo.head.None? {
      return Aborted;
    }
    var root := repo.commits[repo.head.value].tree;
    var entries := Expand("", root);
    var records: seq<FileRecord> := [];
    ghost var visited: seq<BlobFile> := [];
    PendingExpand("", root);
    while |entries| > 0
      invariant records == Report(visited, sniff)
      invariant visited + Reverse(Pending(entries)) == Reverse(Files("", root))
      decreases Weight(entries)
    {
      var item := entries[|entries| - 1];
      var rest := entries[..|entries| - 1];
      var fullPath := Join(item.prefix, item.entry.name);
      match item.entry.node {
        case Blob(content) =>
          BlobStep(visited, entries, Reverse(Files("", root)), content);
          var size := |content|;
          var kind;
          if !IsTextFile(sniff(fullPath)) {
            kind := Ignore;
          } else if IsTestPath(fullPath) {
            kind := Test;
          } else {
            kind := NotTest;
          }
          ReportAppend(visited, BlobFile(fullPath, content), sniff);
          records := records + [FileRecord(fullPath, size, kind)];
          visited := visited + [BlobFile(fullPath, content)];
          entries := rest;
        case Tree(children) =>
          TreeStep(visited, entries, Reverse(Files("", root)), children);
          entries := rest + Expand(fullPath, children);
        case Other =>
          OtherStep(visited, entries, Reverse(Files("", root)));
          entries := rest;
      }
    }
    return Completed(records);
  }

  /** The report lists each blob of the tree exactly as often as the tree
      holds it: it is a permutation of the depth-first listing. */
  lemma ReportIsPermutation(root: seq<Entry>, sniff: string -> Option<string>)
    ensures multiset(Report(Reverse(Files("", root)), sniff)) == multiset(Report(Files("", root), sniff))
  {
    var fs := Files("", root);
    ReverseIsPermutation(Report(fs, sniff));
    assert Report(Reverse(fs), sniff) == Reverse(Report(fs, sniff));
  }

  lemma {:induction false} ReverseIsPermutation<T>(s: seq<T>)
    ensures multiset(Reverse(s)) == multiset(s)
  {
    if s != [] {
      var n := |s| - 1;
      assert s == s[..n] + [s[n]];
      assert Reverse(s) == [s[n]] + Reverse(s[..n]);
      ReverseIsPermutation(s[..n]);
    }
  }

  /** A blob reachable from the top of the tree through `names` is reported
      with the joined path, its byte length and its class; and every record
      of the report is such a blob. */
  lemma ReportedIffReachable(root: seq<Entry>, sniff: string -> Option<string>, rec: FileRecord)
    ensures rec in Report(Reverse(Files("", root)), sniff) <==>
              exists names, content :: BlobAt(root, names, content) &&
                rec == Describe(BlobFile(JoinAll("", names), content), sniff)
  {
    var fs := Files("", root);
    var report := Report(Reverse(fs), sniff);
    if rec in report {
      var i :| 0 <= i < |report| && report[i] == rec;
      var f := fs[|fs| - 1 - i];
      FilesSound("", root, f);
      var names :| BlobAt(root, names, f.content) && f.path == JoinAll("", names);
      assert rec == Describe(BlobFile(JoinAll("", names), f.content), sniff);
    }
    forall names, content | BlobAt(root, names, content)
      ensures Describe(BlobFile(JoinAll("", names), content), sniff) in report
    {
      var f := BlobFile(JoinAll("", names), content);
      FilesComplete("", root, names, content);
      var i :| 0 <= i < |fs| && fs[i] == f;
      assert report[|fs| - 1 - i] == Describe(f, sniff);
    }
  }

  /** In a well-formed tree every path is reported once. */
  lemma ReportPathsDistinct(root: seq<Entry>, sniff: string -> Option<string>)
    requires WellFormedTree(root)
    ensures var r := Report(Reverse(Files("", root)), sniff);
            forall i, j :: 0 <= i < j < |r| ==> r[i].path != r[j].path
  {
    var fs := Files("", root);
    var rev := Reverse(fs);
    var r := Report(rev, sniff);
    FilesPathsDistinct("", root);
    forall i, j | 0 <= i < j < |r| ensures r[i].path != r[j].path {
      var a, b := |fs| - 1 - j, |fs| - 1 - i;
      assert fs[a].path != fs[b].path;
      assert r[i].path == rev[i].path == fs[b].path;
      assert r[j].path == rev[j].path == fs[a].path;
    }
  }
}
