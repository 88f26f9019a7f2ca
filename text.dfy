/**
  Strings as the program uses them: substring search (Rust's `str::contains`)
  and the joining of a directory prefix with an entry name (`PathBuf::push`
  applied to an empty buffer, then to the prefix, then to the name). The
  join agrees with `PathBuf::push` only for names free of `/`, which git
  forbids in tree entries.
 */
module Text {

  /** `sub` occurs in `s` starting at index `i`. */
  ghost predicate Occurs(s: string, sub: string, i: int)
  {
    0 <= i && i + |sub| <= |s| && s[i..i + |sub|] == sub
  }

  /** Substring search, scanning `s` from the left as `str::contains` does.
      The empty pattern is contained in every string. */
  function Contains(s: string, sub: string): bool
    decreases |s|
  {
    sub <= s || (|s| > 0 && Contains(s[1..], sub))
  }

  /** The scan finds `sub` exactly when it occurs at some index of `s`. */
  lemma {:induction false} ContainsIff(s: string, sub: string)
    ensures Contains(s, sub) <==> exists i :: Occurs(s, sub, i)
    decreases |s|
  {
    if sub <= s {
      assert Occurs(s, sub, 0);
    } else if |s| == 0 {
      assert forall i :: !Occurs(s, sub, i);
    } else {
      ContainsIff(s[1..], sub);
      if exists i :: Occurs(s, sub, i) {
        var i :| Occurs(s, sub, i);
        assert i != 0;
        OccursShift(s, sub, i - 1);
      }
      if exists i :: Occurs(s[1..], sub, i) {
        var i :| Occurs(s[1..], sub, i);
        OccursShift(s, sub, i);
      }
    }
  }

  /** Dropping the first character moves every occurrence one to the left. */
  lemma OccursShift(s: string, sub: string, i: int)
    requires |s| > 0 && 0 <= i
    ensures Occurs(s[1..], sub, i) <==> Occurs(s, sub, i + 1)
  {
    if i + 1 + |sub| <= |s| {
      assert s[1..][i..i + |sub|] == s[i + 1..i + 1 + |sub|];
    }
  }

  /** An occurrence at a known index is found by the scan. */
  lemma OccursContains(s: string, sub: string, i: int)
    requires Occurs(s, sub, i)
    ensures Contains(s, sub)
  {
    ContainsIff(s, sub);
  }

  /** A string lacking one of the pattern's characters does not contain it. */
  lemma MissingCharNotContained(s: string, sub: string, k: int)
    requires 0 <= k < |sub| && sub[k] !in s
    ensures !Contains(s, sub)
  {
    ContainsIff(s, sub);
    forall i | 0 <= i ensures !Occurs(s, sub, i) {
      if i + |sub| <= |s| {
        assert s[i..i + |sub|][k] == s[i + k];
      }
    }
  }

  /** Path separator. */
  const Sep: char := '/'

  /** The relative path of entry `name` under directory `prefix`; the
      top level has the empty prefix and adds no separator. Names are taken
      to be free of `/`, as git requires of tree entries. */
  function Join(prefix: string, name: string): string
  {
    if prefix == "" then name else prefix + [Sep] + name
  }

  /** An occurrence that overlaps the separator between prefix and name
      contains the separator. */
  lemma StraddleHasSep(prefix: string, name: string, sub: string, i: int)
    requires Occurs(prefix + [Sep] + name, sub, i)
    requires i <= |prefix| < i + |sub|
    ensures Sep in sub
  {
    var j := prefix + [Sep] + name;
    assert sub[|prefix| - i] == j[i..i + |sub|][|prefix| - i] == j[|prefix|];
  }

  /** A pattern that spans no separator occurs in a joined path exactly when
      it occurs in the directory prefix or in the entry name. */
  lemma JoinContains(prefix: string, name: string, sub: string)
    requires Sep !in sub
    ensures Contains(Join(prefix, name), sub) <==> Contains(prefix, sub) || Contains(name, sub)
  {
    var j := Join(prefix, name);
    ContainsIff(j, sub);
    ContainsIff(prefix, sub);
    ContainsIff(name, sub);
    if prefix == "" {
      if Contains(prefix, sub) {
        assert sub == [];
        assert Occurs(name, sub, 0);
      }
    } else {
      if exists i :: Occurs(prefix, sub, i) {
        var i :| Occurs(prefix, sub, i);
        PrefixOccursInJoin(prefix, name, sub, i);
      }
      if exists i :: Occurs(name, sub, i) {
        var i :| Occurs(name, sub, i);
        NameOccursInJoin(prefix, name, sub, i);
      }
      if exists i :: Occurs(j, sub, i) {
        var i :| Occurs(j, sub, i);
        JoinOccursSplit(prefix, name, sub, i);
      }
    }
  }

  lemma PrefixOccursInJoin(prefix: string, name: string, sub: string, i: int)
    requires prefix != "" && Occurs(prefix, sub, i)
    ensures Occurs(Join(prefix, name), sub, i)
  {
    var j := Join(prefix, name);
    assert j[i..i + |sub|] == prefix[i..i + |sub|];
  }

  lemma NameOccursInJoin(prefix: string, name: string, sub: string, i: int)
    requires prefix != "" && Occurs(name, sub, i)
    ensures Occurs(Join(prefix, name), sub, |prefix| + 1 + i)
  {
    var j := Join(prefix, name);
    var k := |prefix| + 1;
    assert j[k + i..k + i + |sub|] == name[i..i + |sub|];
  }

  /** An occurrence in a joined path lies in the prefix or in the name,
      unless it spans the separator. */
  lemma JoinOccursSplit(prefix: string, name: string, sub: string, i: int)
    requires prefix != "" && Sep !in sub && Occurs(Join(prefix, name), sub, i)
    ensures Occurs(prefix, sub, i) || Occurs(name, sub, i - |prefix| - 1)
  {
    var j := Join(prefix, name);
    var k := |prefix| + 1;
    if i + |sub| <= |prefix| {
      assert j[i..i + |sub|] == prefix[i..i + |sub|];
    } else if i >= k {
      assert j[i..i + |sub|] == name[i - k..i - k + |sub|];
    } else {
      StraddleHasSep(prefix, name, sub, i);
      assert false;
    }
  }
}
