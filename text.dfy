/** String operations from Go's `strings` and `path` packages that the talk
    compiler relies on, stated over `seq<char>`. */
module Text {

  /** `pat` occurs in `s` starting at index `i`. */
  predicate OccursAt(s: string, pat: string, i: nat) {
    i + |pat| <= |s| && s[i..i + |pat|] == pat
  }

  /** `strings.Contains(s, pat)`. */
  predicate Contains(s: string, pat: string) {
    exists i: nat | i <= |s| :: OccursAt(s, pat, i)
  }

  /** The first character of `pat` occurs nowhere else in it, so no occurrence
      of `pat` can start inside another occurrence. ".yaml" has this shape. */
  predicate HeadUnique(pat: string) {
    pat != [] && forall k :: 0 < k < |pat| ==> pat[k] != pat[0]
  }

  /** `strings.Replace(s, pat, "", -1)`: scans `s` from the left and deletes
      every non-overlapping occurrence of `pat`, wherever it stands. */
  function RemoveAll(s: string, pat: string): (r: string)
    requires pat != []
    ensures |r| <= |s|
    ensures |r| == |s| ==> r == s
    decreases |s|
  {
    if |s| < |pat| then s
    else if s[..|pat|] == pat then RemoveAll(s[|pat|..], pat)
    else [s[0]] + RemoveAll(s[1..], pat)
  }

  /** `path.Join(a, b)` for clean, non-empty components. */
  function Join(a: string, b: string): string
  {
    a + "/" + b
  }

  /** Dropping the first character keeps a string free of `pat`. */
  lemma NoOccurrenceInTail(s: string, pat: string)
    requires s != [] && !Contains(s, pat)
    ensures !Contains(s[1..], pat)
  {
    forall i: nat | OccursAt(s[1..], pat, i)
      ensures false
    {
      assert s[1..][i..i + |pat|] == s[i + 1..i + 1 + |pat|];
      assert OccursAt(s, pat, i + 1);
    }
  }

  /** A string with no occurrence of `pat` is left unchanged by `RemoveAll`. */
  lemma {:induction false} RemoveAllWithoutOccurrence(s: string, pat: string)
    requires pat != [] && !Contains(s, pat)
    ensures RemoveAll(s, pat) == s
    decreases |s|
  {
    if |s| >= |pat| {
      assert !OccursAt(s, pat, 0);
      NoOccurrenceInTail(s, pat);
      RemoveAllWithoutOccurrence(s[1..], pat);
      assert [s[0]] + s[1..] == s;
    }
  }

  /** A non-empty `s` free of `pat`, followed by `pat`, does not start with
      `pat`: an occurrence at the front would either lie inside `s` or put
      `pat`'s first character at a later position of `pat`. */
  lemma NotAtFront(s: string, pat: string, t: string)
    requires s != [] && HeadUnique(pat) && !Contains(s, pat)
    ensures (s + pat + t)[..|pat|] != pat
  {
    var u := s + pat + t;
    if |s| >= |pat| {
      assert u[..|pat|] == s[..|pat|];
      assert !OccursAt(s, pat, 0);
    } else {
      assert u[..|pat|][|s|] == pat[0] != pat[|s|];
    }
  }

  /** When `s` has no occurrence of `pat` and `pat` cannot overlap itself,
      the first occurrence in `s + pat + t` is the one right after `s`: the
      scan keeps `s` whole, drops `pat` and carries on in `t`. */
  lemma {:induction false} RemoveAllAfterClean(s: string, pat: string, t: string)
    requires HeadUnique(pat) && !Contains(s, pat)
    ensures RemoveAll(s + pat + t, pat) == s + RemoveAll(t, pat)
    decreases |s|
  {
    var u := s + pat + t;
    if s == [] {
      assert u == pat + t;
      assert u[..|pat|] == pat && u[|pat|..] == t;
    } else {
      NotAtFront(s, pat, t);
      NoOccurrenceInTail(s, pat);
      RemoveAllAfterClean(s[1..], pat, t);
      calc {
        RemoveAll(u, pat);
        [u[0]] + RemoveAll(u[1..], pat);
        { assert u[1..] == s[1..] + pat + t; }
        [s[0]] + RemoveAll(s[1..] + pat + t, pat);
        [s[0]] + (s[1..] + RemoveAll(t, pat));
        { assert [s[0]] + s[1..] == s; }
        s + RemoveAll(t, pat);
      }
    }
  }
}
