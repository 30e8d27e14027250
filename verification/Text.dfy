/**
 * The two ECMAScript string operations the request pipeline relies on:
 * `s.split(sep)[0]` and a global regular-expression replace of a literal
 * pattern, `s.replace(/pat/g, rep)`.
 */
module Text {
  import opened Wrappers

  /** `pat` occurs in `s` starting at index `i`. */
  predicate OccursAt(s: string, pat: string, i: nat)
  {
    i + |pat| <= |s| && s[i..i + |pat|] == pat
  }

  /** No occurrence of `pat` anywhere in `s`. */
  predicate Free(s: string, pat: string)
  {
    forall i: nat :: i <= |s| ==> !OccursAt(s, pat, i)
  }

  /**
   * `s.split(sep)[0]`: the text before the first `sep`, or all of `s` when
   * it holds none.
   */
  function BeforeFirst(s: string, sep: char): (r: string)
    ensures r <= s
    ensures sep !in r
    ensures |r| < |s| ==> s[|r|] == sep
  {
    if s == [] || s[0] == sep then [] else [s[0]] + BeforeFirst(s[1..], sep)
  }

  /** Whatever follows the first separator does not affect `split(sep)[0]`. */
  lemma {:induction false} BeforeFirstIgnoresRest(s: string, sep: char, rest: string)
    requires sep !in s
    ensures BeforeFirst(s + [sep] + rest, sep) == s
    ensures BeforeFirst(s, sep) == s
  {
    if s != [] {
      assert (s + [sep] + rest)[1..] == s[1..] + [sep] + rest;
      BeforeFirstIgnoresRest(s[1..], sep, rest);
    }
  }

  /**
   * The first index at which `pat` occurs in `s`, the search a regular
   * expression engine performs for a literal pattern.
   * `FirstOccurrenceIsFirst` says it finds the first match.
   */
  function FirstOccurrence(s: string, pat: string): (r: Option<nat>)
    requires pat != []
    ensures r.Some? ==> r.value + |pat| <= |s|
    decreases |s|
  {
    if |s| < |pat| then None
    else if s[..|pat|] == pat then Some(0)
    else
      match FirstOccurrence(s[1..], pat)
      case None => None
      case Some(k) => Some(k + 1)
  }

  /** The search finds a match, and no match before it; it finds nothing only when there is none. */
  lemma {:induction false} FirstOccurrenceIsFirst(s: string, pat: string)
    requires pat != []
    ensures FirstOccurrence(s, pat).Some? ==> OccursAt(s, pat, FirstOccurrence(s, pat).value)
    ensures FirstOccurrence(s, pat).Some? ==>
      forall j: nat :: j < FirstOccurrence(s, pat).value ==> !OccursAt(s, pat, j)
    ensures FirstOccurrence(s, pat).None? ==> Free(s, pat)
    decreases |s|
  {
    if |s| < |pat| {
      assert forall j: nat :: !OccursAt(s, pat, j);
    } else if s[..|pat|] == pat {
    } else {
      FirstOccurrenceIsFirst(s[1..], pat);
      match FirstOccurrence(s[1..], pat)
      case None =>
        assert forall j: nat :: OccursAt(s, pat, j + 1) ==> OccursAt(s[1..], pat, j) by {
          forall j: nat | OccursAt(s, pat, j + 1) ensures OccursAt(s[1..], pat, j) {
            assert s[1..][j..j + |pat|] == s[j + 1..j + 1 + |pat|];
          }
        }
        assert forall j: nat :: !OccursAt(s, pat, j) by {
          forall j: nat ensures !OccursAt(s, pat, j) {
            if j > 0 { assert !OccursAt(s[1..], pat, j - 1); }
          }
        }
      case Some(k) =>
        assert s[1..][k..k + |pat|] == s[k + 1..k + 1 + |pat|];
        assert forall j: nat :: j < k + 1 ==> !OccursAt(s, pat, j) by {
          forall j: nat | j < k + 1 ensures !OccursAt(s, pat, j) {
            if 0 < j && OccursAt(s, pat, j) {
              assert s[1..][j - 1..j - 1 + |pat|] == s[j..j + |pat|];
              assert OccursAt(s[1..], pat, j - 1);
            }
          }
        }
    }
  }

  /**
   * `s.replace(/pat/g, rep)` as ECMAScript defines it: find the first match
   * at or after the last one, substitute, and continue after the match.
   */
  function ReplaceBySearch(s: string, pat: string, rep: string): string
    requires pat != []
    decreases |s|
  {
    match FirstOccurrence(s, pat)
    case None => s
    case Some(i) => s[..i] + rep + ReplaceBySearch(s[i + |pat|..], pat, rep)
  }

  /**
   * The same replace as one left-to-right scan: a match at the current
   * position is replaced and skipped, any other character is kept.
   */
  function ReplaceAll(s: string, pat: string, rep: string): string
    requires pat != []
    decreases |s|
  {
    if |s| < |pat| then s
    else if s[..|pat|] == pat then rep + ReplaceAll(s[|pat|..], pat, rep)
    else [s[0]] + ReplaceAll(s[1..], pat, rep)
  }

  /** A character the scan keeps moves the first match one place to the right. */
  lemma {:induction false} FirstOccurrenceTail(s: string, pat: string)
    requires pat != [] && |s| >= |pat| && s[..|pat|] != pat
    ensures FirstOccurrence(s, pat).Some? <==> FirstOccurrence(s[1..], pat).Some?
    ensures FirstOccurrence(s, pat).Some? ==>
      FirstOccurrence(s, pat).value == FirstOccurrence(s[1..], pat).value + 1
  {
  }

  /** Away from a match, the search-based replace keeps the first character. */
  lemma {:induction false} ReplaceBySearchTail(s: string, pat: string, rep: string)
    requires pat != [] && |s| >= |pat| && s[..|pat|] != pat
    ensures ReplaceBySearch(s, pat, rep) == [s[0]] + ReplaceBySearch(s[1..], pat, rep)
  {
    FirstOccurrenceTail(s, pat);
    var found := FirstOccurrence(s[1..], pat);
    if found.Some? {
      ReplaceBySearchShifted(s, pat, rep, found.value);
    }
  }

  /** One search-and-substitute step, seen from `s` and from its tail. */
  lemma {:induction false} ReplaceBySearchShifted(s: string, pat: string, rep: string, k: nat)
    requires pat != [] && |s| >= 1 && k + 1 + |pat| <= |s|
    requires FirstOccurrence(s, pat) == Some(k + 1) && FirstOccurrence(s[1..], pat) == Some(k)
    ensures ReplaceBySearch(s, pat, rep) == [s[0]] + ReplaceBySearch(s[1..], pat, rep)
  {
    var t := s[1..];
    ShiftSlices(s, k, |pat|);
    ReplaceBySearchStep(t, pat, rep, k);
    ReplaceBySearchStep(s, pat, rep, k + 1);
    Regroup(ReplaceBySearch(s, pat, rep), ReplaceBySearch(t, pat, rep), s[..k + 1], t[..k], s[0],
      rep, ReplaceBySearch(t[k + |pat|..], pat, rep));
  }

  lemma {:induction false} Regroup(whole: string, tail: string, a: string, b: string, c: char, rep: string, rest: string)
    requires whole == a + rep + rest && tail == b + rep + rest && a == [c] + b
    ensures whole == [c] + tail
  {
  }

  /** One search-and-substitute step at the first match `i`. */
  lemma {:induction false} ReplaceBySearchStep(s: string, pat: string, rep: string, i: nat)
    requires pat != [] && i + |pat| <= |s| && FirstOccurrence(s, pat) == Some(i)
    ensures ReplaceBySearch(s, pat, rep) == s[..i] + rep + ReplaceBySearch(s[i + |pat|..], pat, rep)
  {
  }

  /** Slices of `s` seen through its tail `s[1..]`. */
  lemma {:induction false} ShiftSlices(s: string, k: nat, m: nat)
    requires k + m + 1 <= |s|
    ensures s[k + 1 + m..] == s[1..][k + m..]
    ensures s[..k + 1] == [s[0]] + s[1..][..k]
  {
  }

  /** The scan and the search-and-substitute definition agree on every input. */
  lemma {:induction false} ReplaceAllIsGlobalReplace(s: string, pat: string, rep: string)
    requires pat != []
    ensures ReplaceAll(s, pat, rep) == ReplaceBySearch(s, pat, rep)
    decreases |s|
  {
    if |s| < |pat| {
      assert FirstOccurrence(s, pat).None?;
    } else if s[..|pat|] == pat {
      assert FirstOccurrence(s, pat) == Some(0);
      ReplaceAllIsGlobalReplace(s[|pat|..], pat, rep);
    } else {
      ReplaceBySearchTail(s, pat, rep);
      ReplaceAllIsGlobalReplace(s[1..], pat, rep);
    }
  }

  /** When the replacement is no longer than the pattern, the result is no longer than the input. */
  lemma {:induction false} ReplaceAllNoLonger(s: string, pat: string, rep: string)
    requires pat != [] && |rep| <= |pat|
    ensures |ReplaceAll(s, pat, rep)| <= |s|
    decreases |s|
  {
    if |s| < |pat| {
    } else if s[..|pat|] == pat {
      ReplaceAllNoLonger(s[|pat|..], pat, rep);
    } else {
      ReplaceAllNoLonger(s[1..], pat, rep);
    }
  }

  /** A string without the pattern is left as it is. */
  lemma {:induction false} ReplaceAllFree(s: string, pat: string, rep: string)
    requires pat != [] && Free(s, pat)
    ensures ReplaceAll(s, pat, rep) == s
    decreases |s|
  {
    if |s| < |pat| {
    } else {
      assert !OccursAt(s, pat, 0);
      assert Free(s[1..], pat) by {
        forall j: nat ensures !OccursAt(s[1..], pat, j) {
          if OccursAt(s[1..], pat, j) {
            assert s[1..][j..j + |pat|] == s[j + 1..j + 1 + |pat|];
            assert OccursAt(s, pat, j + 1);
          }
        }
      }
      ReplaceAllFree(s[1..], pat, rep);
    }
  }

  /** No character of `rep` appears in `pat`. */
  predicate Disjoint(rep: string, pat: string)
  {
    forall k :: 0 <= k < |rep| ==> rep[k] !in pat
  }

  /**
   * While the result of the scan shows none of `rep`'s characters, it is a
   * copy of the input.
   */
  lemma {:induction false} ReplaceAllKeepsPrefix(t: string, pat: string, rep: string, m: nat)
    requires pat != [] && rep != []
    requires m <= |ReplaceAll(t, pat, rep)|
    ensures (forall k :: 0 <= k < m ==> ReplaceAll(t, pat, rep)[k] !in rep) ==>
      m <= |t| && ReplaceAll(t, pat, rep)[..m] == t[..m]
    decreases |t|
  {
    var r := ReplaceAll(t, pat, rep);
    if m == 0 || |t| < |pat| {
    } else if t[..|pat|] == pat {
      assert r[0] == rep[0];
      assert r[0] in rep;
    } else {
      var r' := ReplaceAll(t[1..], pat, rep);
      assert r == [t[0]] + r';
      ReplaceAllKeepsPrefix(t[1..], pat, rep, m - 1);
      if forall k :: 0 <= k < m ==> r[k] !in rep {
        forall k | 0 <= k < m - 1 ensures r'[k] !in rep {
          assert r'[k] == r[k + 1];
        }
        assert r[..m] == [t[0]] + r'[..m - 1];
        assert t[..m] == [t[0]] + t[1..][..m - 1];
      }
    }
  }

  /**
   * A match at the front of a kept character followed by the scan of the rest
   * was already a match in the input.
   */
  lemma {:induction false} KeptCharacterStartsNoMatch(s: string, pat: string, rep: string)
    requires pat != [] && rep != [] && Disjoint(rep, pat) && s != []
    ensures OccursAt([s[0]] + ReplaceAll(s[1..], pat, rep), pat, 0) ==> OccursAt(s, pat, 0)
  {
    var r' := ReplaceAll(s[1..], pat, rep);
    var r := [s[0]] + r';
    if OccursAt(r, pat, 0) {
      var m := |pat| - 1;
      forall k | 0 <= k < m ensures r'[k] !in rep {
        assert r'[k] == r[k + 1] == pat[k + 1];
      }
      ReplaceAllKeepsPrefix(s[1..], pat, rep, m);
      assert r[..|pat|] == [s[0]] + r'[..m];
      assert s[..|pat|] == [s[0]] + s[1..][..m];
    }
  }

  /**
   * A replacement that shares no character with the pattern leaves no
   * occurrence of the pattern behind.
   */
  lemma {:induction false} ReplaceAllLeavesNoMatch(s: string, pat: string, rep: string)
    requires pat != [] && rep != [] && Disjoint(rep, pat)
    ensures Free(ReplaceAll(s, pat, rep), pat)
    decreases |s|
  {
    var r := ReplaceAll(s, pat, rep);
    if |s| < |pat| {
    } else if s[..|pat|] == pat {
      var r' := ReplaceAll(s[|pat|..], pat, rep);
      ReplaceAllLeavesNoMatch(s[|pat|..], pat, rep);
      forall i: nat | i <= |r| ensures !OccursAt(r, pat, i) {
        if i < |rep| {
          assert r[i] == rep[i] && rep[i] !in pat;
          assert pat[0] in pat;
        } else if i + |pat| <= |r| {
          assert r[i..i + |pat|] == r'[i - |rep|..i - |rep| + |pat|];
          assert !OccursAt(r', pat, i - |rep|);
        }
      }
    } else {
      var r' := ReplaceAll(s[1..], pat, rep);
      assert r == [s[0]] + r';
      ReplaceAllLeavesNoMatch(s[1..], pat, rep);
      forall i: nat | i <= |r| ensures !OccursAt(r, pat, i) {
        if i == 0 {
          KeptCharacterStartsNoMatch(s, pat, rep);
        } else if i + |pat| <= |r| {
          assert r[i..i + |pat|] == r'[i - 1..i - 1 + |pat|];
          assert !OccursAt(r', pat, i - 1);
        }
      }
    }
  }
}
