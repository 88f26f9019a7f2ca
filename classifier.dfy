/**
  The file classifier: a blob is Ignore unless its MIME type is textual and
  not a gettext catalogue; a kept blob is Test when its relative path
  mentions "test" and NotTest otherwise.
 */
module Classifier {
  import opened Wrappers
  import opened Text

  datatype FileClass = Ignore | Test | NotTest

  /** The MIME string as the program reads it: a failed sniff reads as "". */
  function MimeString(sniffed: Option<string>): string
  {
    sniffed.GetOr("")
  }

  /** The decision of `is_text_file` on the sniffed MIME type. */
  predicate IsTextFile(sniffed: Option<string>)
  {
    var m := MimeString(sniffed);
    Contains(m, "text") && !Contains(m, "x-po")
  }

  /** `is_test_file`: case-sensitive "test" anywhere in the relative path. */
  predicate IsTestPath(path: string)
  {
    Contains(path, "test")
  }

  /** The three-way decision made for every blob, MIME test first. */
  function ClassifyFile(path: string, sniffed: Option<string>): FileClass
  {
    if !IsTextFile(sniffed) then Ignore
    else if IsTestPath(path) then Test
    else NotTest
  }

  /** Ignore exactly when "text" occurs nowhere in the MIME string or
      "x-po" occurs somewhere in it; the path plays no part. */
  lemma ClassifyIgnoreIff(path: string, sniffed: Option<string>)
    ensures ClassifyFile(path, sniffed) == Ignore <==>
              (forall i :: !Occurs(MimeString(sniffed), "text", i))
              || (exists i :: Occurs(MimeString(sniffed), "x-po", i))
  {
    ContainsIff(MimeString(sniffed), "text");
    ContainsIff(MimeString(sniffed), "x-po");
  }

  /** A kept blob is Test exactly when "test" occurs somewhere in its path,
      and NotTest exactly when it occurs nowhere. */
  lemma ClassifyKeptIff(path: string, sniffed: Option<string>)
    requires IsTextFile(sniffed)
    ensures ClassifyFile(path, sniffed) == Test <==> exists i :: Occurs(path, "test", i)
    ensures ClassifyFile(path, sniffed) == NotTest <==> forall i :: !Occurs(path, "test", i)
  {
    ContainsIff(path, "test");
  }

  /** A failed sniff is not fatal: the blob is Ignore whatever its path. */
  lemma SniffFailureIgnored(path: string)
    ensures ClassifyFile(path, None) == Ignore
  {
    assert !Contains("", "text");
  }

  /** The whole relative path is searched: a blob under a directory whose
      name mentions "test" is Test even when its own name does not. */
  lemma ClassifyJoined(dir: string, name: string, sniffed: Option<string>)
    requires IsTextFile(sniffed)
    ensures ClassifyFile(Join(dir, name), sniffed) == Test <==> IsTestPath(dir) || IsTestPath(name)
  {
    JoinContains(dir, name, "test");
  }
}
