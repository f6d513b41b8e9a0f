/** String primitives of Python's `str` and `re` as the core uses them:
    `find` with a start index, `in`, `replace`, `strip()`, and the
    run-removing substitutions.  Strings are sequences of code points. */
module Text {

  /** Python's `str.isspace()` for one code point: the characters that
      `str.strip()` with no argument removes. */
  predicate IsSpace(c: char) {
    var n := c as int;
    (0x09 <= n <= 0x0D) || (0x1C <= n <= 0x20) || n == 0x85 || n == 0xA0 ||
    n == 0x1680 || (0x2000 <= n <= 0x200A) || n == 0x2028 || n == 0x2029 ||
    n == 0x202F || n == 0x205F || n == 0x3000
  }

  predicate AllSpace(s: string) {
    forall j :: 0 <= j < |s| ==> IsSpace(s[j])
  }

  /** `pat` occurs in `s` starting at index `i`. */
  predicate OccursAt(s: string, pat: string, i: int) {
    0 <= i && i + |pat| <= |s| && s[i..i + |pat|] == pat
  }

  /** Python's `pat in s`. */
  predicate Contains(s: string, pat: string) {
    exists i | 0 <= i <= |s| - |pat| :: OccursAt(s, pat, i)
  }

  /** Python's `s.find(pat, from)`: the least index at or after `from`
      where `pat` occurs, or -1 when there is none. */
  function Find(s: string, pat: string, from: nat): (r: int)
    ensures r == -1 || (from <= r && OccursAt(s, pat, r))
    ensures r != -1 ==> forall j :: from <= j < r ==> !OccursAt(s, pat, j)
    ensures r == -1 ==> forall j :: from <= j ==> !OccursAt(s, pat, j)
    decreases |s| - from
  {
    if from + |pat| > |s| then -1
    else if s[from..from + |pat|] == pat then from
    else Find(s, pat, from + 1)
  }

  /** An occurrence with none before it, from `from` on, is what `find`
      returns. */
  lemma FindIsLeast(s: string, pat: string, from: nat, r: int)
    requires from <= r && OccursAt(s, pat, r)
    requires forall j | from <= j < r :: !OccursAt(s, pat, j)
    ensures Find(s, pat, from) == r
  {
    var f := Find(s, pat, from);
    if f == -1 || f > r {
      assert false;
    } else if f < r {
      assert false;
    }
  }

  /** `pat in s` is the same as `s.find(pat) != -1`. */
  lemma FindContains(s: string, pat: string)
    ensures Contains(s, pat) <==> Find(s, pat, 0) != -1
  {
    var r := Find(s, pat, 0);
    if r != -1 {
      assert OccursAt(s, pat, r);
    }
  }

  /** Python's `s.replace(pat, rep)` for a non-empty `pat` (and equally
      `re.sub` with a literal pattern): occurrences are replaced from left
      to right without overlap. */
  function Replace(s: string, pat: string, rep: string): (r: string)
    requires pat != []
    ensures !Contains(s, pat) ==> r == s
    decreases |s|
  {
    if |s| < |pat| then s
    else if s[..|pat|] == pat then
      assert OccursAt(s, pat, 0);
      rep + Replace(s[|pat|..], pat, rep)
    else
      var tail := Replace(s[1..], pat, rep);
      assert !Contains(s, pat) ==> !Contains(s[1..], pat) by {
        if Contains(s[1..], pat) {
          var i :| 0 <= i <= |s| - 1 - |pat| && OccursAt(s[1..], pat, i);
          assert s[1..][i..i + |pat|] == s[i + 1..i + 1 + |pat|];
          assert OccursAt(s, pat, i + 1);
        }
      }
      [s[0]] + tail
  }

  // ---------------------------------------------------------------------
  // strip()

  /** Number of leading whitespace characters. */
  function StripStart(s: string): (i: nat)
    ensures i <= |s| && AllSpace(s[..i])
    ensures i < |s| ==> !IsSpace(s[i])
  {
    if s == [] || !IsSpace(s[0]) then 0
    else
      var k := StripStart(s[1..]);
      assert s[..k + 1] == [s[0]] + s[1..][..k];
      k + 1
  }

  /** Index just past the last non-whitespace character at or after `lo`. */
  function StripEnd(s: string, lo: nat): (e: nat)
    requires lo <= |s|
    ensures lo <= e <= |s| && AllSpace(s[e..])
    ensures e > lo ==> !IsSpace(s[e - 1])
    decreases |s|
  {
    if |s| == lo || !IsSpace(s[|s| - 1]) then |s|
    else
      var e := StripEnd(s[..|s| - 1], lo);
      assert s[e..] == s[..|s| - 1][e..] + [s[|s| - 1]];
      e
  }

  /** Python's `s.strip()`: the infix of `s` left after removing leading
      and trailing whitespace. */
  function Strip(s: string): (r: string)
    ensures r == [] || (!IsSpace(r[0]) && !IsSpace(r[|r| - 1]))
    ensures exists i :: 0 <= i <= |s| - |r| && r == s[i..i + |r|]
                        && AllSpace(s[..i]) && AllSpace(s[i + |r|..])
  {
    var i := StripStart(s);
    var e := StripEnd(s, i);
    var r := s[i..e];
    assert |r| == e - i && r == s[i..i + |r|];
    assert AllSpace(s[..i]) && AllSpace(s[i + |r|..]);
    r
  }

  /** Where the stripped text starts: only whitespace precedes and follows it. */
  lemma StripIsInfix(s: string) returns (i: nat)
    ensures i <= |s| - |Strip(s)| && Strip(s) == s[i..i + |Strip(s)|]
    ensures AllSpace(s[..i]) && AllSpace(s[i + |Strip(s)|..])
  {
    i := StripStart(s);
    var e := StripEnd(s, i);
    assert Strip(s) == s[i..e];
  }

  /** A slice of a slice is a slice of the original. */
  lemma SliceOfSlice(s: string, a: int, b: int, i: int, j: int)
    requires 0 <= a <= b <= |s| && 0 <= i <= j <= b - a
    ensures s[a..b][i..j] == s[a + i..a + j]
  {
    var t := s[a..b];
    assert forall k :: 0 <= k < j - i ==> t[i..j][k] == t[i + k] == s[a + i + k] == s[a + i..a + j][k];
  }

  /** An occurrence inside an infix is an occurrence in the string, and an
      occurrence in the string that lies within the infix is one in it. */
  lemma OccursInInfix(s: string, r: string, i: int, pat: string, j: int)
    requires 0 <= i <= |s| - |r| && r == s[i..i + |r|]
    ensures OccursAt(r, pat, j) ==> OccursAt(s, pat, i + j)
    ensures 0 <= j <= |r| - |pat| && OccursAt(s, pat, i + j) ==> OccursAt(r, pat, j)
  {
    if 0 <= j <= |r| - |pat| {
      SliceOfSlice(s, i, i + |r|, j, j + |pat|);
    }
  }

  /** What does not occur in a string does not occur in any infix of it. */
  lemma InfixKeepsAbsence(s: string, r: string, i: int, pat: string)
    requires 0 <= i <= |s| - |r| && r == s[i..i + |r|] && !Contains(s, pat)
    ensures !Contains(r, pat)
  {
    forall j | 0 <= j <= |r| - |pat|
      ensures !OccursAt(r, pat, j)
    {
      OccursInInfix(s, r, i, pat, j);
    }
  }

  /** Stripping only cuts text away, so it adds no occurrence of `pat`. */
  lemma StripKeepsAbsence(s: string, pat: string)
    requires !Contains(s, pat)
    ensures !Contains(Strip(s), pat)
  {
    var i := StripIsInfix(s);
    InfixKeepsAbsence(s, Strip(s), i, pat);
  }

  // ---------------------------------------------------------------------
  // Runs of one character

  /** The string of `k` copies of `c`. */
  function Repeat(c: char, k: nat): (r: string)
    ensures |r| == k && forall j :: 0 <= j < k ==> r[j] == c
  {
    if k == 0 then [] else [c] + Repeat(c, k - 1)
  }

  /** Length of the run of `c` that starts `s`. */
  function LeadRun(s: string, c: char): (n: nat)
    ensures n <= |s| && (forall j :: 0 <= j < n ==> s[j] == c)
    ensures n < |s| ==> s[n] != c
  {
    if s == [] || s[0] != c then 0 else 1 + LeadRun(s[1..], c)
  }

  /** No run of `k` or more copies of `c` starts anywhere in `s`. */
  predicate RunFree(s: string, c: char, k: nat)
    decreases |s|
  {
    s == [] || (LeadRun(s, c) < k && RunFree(s[1..], c, k))
  }

  /** A run-free string does not contain `k` copies of `c` in a row. */
  lemma {:induction false} RunFreeExcludesRepeat(s: string, c: char, k: nat)
    requires k >= 1 && RunFree(s, c, k)
    ensures !Contains(s, Repeat(c, k))
    decreases |s|
  {
    var p := Repeat(c, k);
    if s != [] {
      RunFreeExcludesRepeat(s[1..], c, k);
      forall i | 0 <= i <= |s| - k
        ensures !OccursAt(s, p, i)
      {
        if i == 0 {
          if OccursAt(s, p, 0) {
            LeadRunCovers(s, c, k);
          }
        } else {
          OccursInInfix(s, s[1..], 1, p, i - 1);
        }
      }
    }
  }

  /** When `s` starts with `k` copies of `c`, its leading run is at least `k`. */
  lemma {:induction false} LeadRunCovers(s: string, c: char, k: nat)
    requires k <= |s| && forall j :: 0 <= j < k ==> s[j] == c
    ensures LeadRun(s, c) >= k
    decreases k
  {
    if k > 0 {
      LeadRunCovers(s[1..], c, k - 1);
    }
  }

  /** A leading run of at least `k` means `s` starts with `k` copies of `c`. */
  lemma LeadRunPrefix(s: string, c: char, k: nat)
    ensures LeadRun(s, c) >= k ==> |s| >= k && s[..k] == Repeat(c, k)
  {
    if LeadRun(s, c) >= k {
      assert forall j :: 0 <= j < k ==> s[..k][j] == Repeat(c, k)[j];
    }
  }

  /** Removing every `k`-run of `c` leaves a short leading run untouched. */
  lemma {:induction false} RemoveRunKeepsShortLead(s: string, c: char, k: nat)
    requires k >= 1 && LeadRun(s, c) < k
    ensures LeadRun(Replace(s, Repeat(c, k), []), c) == LeadRun(s, c)
    decreases |s|
  {
    var p := Repeat(c, k);
    if |s| >= k && s[..k] == p {
      LeadRunCovers(s, c, k);
    } else if |s| >= k || |s| >= 1 {
      if s[0] == c {
        RemoveRunKeepsShortLead(s[1..], c, k);
      }
    }
  }

  /** Python's `s.replace(c * k, "")` leaves no run of `k` copies of `c`:
      a character `c` is kept only where fewer than `k` copies follow. */
  lemma {:induction false} RemoveRunIsRunFree(s: string, c: char, k: nat)
    requires k >= 1
    ensures RunFree(Replace(s, Repeat(c, k), []), c, k)
    decreases |s|
  {
    var p := Repeat(c, k);
    if |s| < k {
      RunFreeShort(s, c, k);
    } else if s[..k] == p {
      RemoveRunIsRunFree(s[k..], c, k);
      assert Replace(s, p, []) == Replace(s[k..], p, []);
    } else {
      RemoveRunIsRunFree(s[1..], c, k);
      var r := Replace(s, p, []);
      assert r == [s[0]] + Replace(s[1..], p, []);
      assert r[1..] == Replace(s[1..], p, []);
      if s[0] == c {
        LeadRunPrefix(s, c, k);
        RemoveRunKeepsShortLead(s, c, k);
      }
    }
  }

  /** A string shorter than `k` is `k`-run free. */
  lemma {:induction false} RunFreeShort(s: string, c: char, k: nat)
    requires |s| < k
    ensures RunFree(s, c, k)
    decreases |s|
  {
    if s != [] {
      RunFreeShort(s[1..], c, k);
    }
  }

  /** After `s.replace(c * k, "")` the string contains no `c * k`. */
  lemma RemoveRunExcludesRepeat(s: string, c: char, k: nat)
    requires k >= 1
    ensures !Contains(Replace(s, Repeat(c, k), []), Repeat(c, k))
  {
    RemoveRunIsRunFree(s, c, k);
    RunFreeExcludesRepeat(Replace(s, Repeat(c, k), []), c, k);
  }

  // ---------------------------------------------------------------------
  // re.sub(r'\n{3,}', '\n\n', s)

  /** Every maximal run of three or more newlines becomes exactly two;
      the regular expression is greedy, so it consumes the whole run.  The
      result is never longer, and a string without such a run is left as it
      is. */
  function CollapseNewlines(s: string): (r: string)
    ensures |r| <= |s|
    ensures RunFree(s, '\n', 3) ==> r == s
    decreases |s|
  {
    if s == [] then []
    else if LeadRun(s, '\n') >= 3 then "\n\n" + CollapseNewlines(s[LeadRun(s, '\n')..])
    else [s[0]] + CollapseNewlines(s[1..])
  }

  /** A leading run shorter than three newlines passes through unchanged. */
  lemma {:induction false} CollapseKeepsShortNewlineLead(s: string)
    requires LeadRun(s, '\n') < 3
    ensures LeadRun(CollapseNewlines(s), '\n') == LeadRun(s, '\n')
    decreases |s|
  {
    if s != [] && s[0] == '\n' {
      CollapseKeepsShortNewlineLead(s[1..]);
    }
  }

  /** Collapsing does not change the leading run of any other character. */
  lemma {:induction false} CollapseKeepsOtherLead(s: string, c: char)
    requires c != '\n'
    ensures LeadRun(CollapseNewlines(s), c) == LeadRun(s, c)
    decreases |s|
  {
    if s != [] && LeadRun(s, '\n') < 3 && s[0] == c {
      CollapseKeepsOtherLead(s[1..], c);
    }
  }

  /** After collapsing, no three newlines stand in a row. */
  lemma {:induction false} CollapseIsNewlineRunFree(s: string)
    ensures RunFree(CollapseNewlines(s), '\n', 3)
    decreases |s|
  {
    if s != [] {
      var n := LeadRun(s, '\n');
      if n >= 3 {
        var t := CollapseNewlines(s[n..]);
        CollapseIsNewlineRunFree(s[n..]);
        CollapseKeepsShortNewlineLead(s[n..]);
        var r := "\n\n" + t;
        assert r[1..] == "\n" + t;
        assert r[1..][1..] == t;
        assert LeadRun(r[1..], '\n') == 1 + LeadRun(t, '\n');
      } else {
        CollapseIsNewlineRunFree(s[1..]);
        var r := CollapseNewlines(s);
        assert r[1..] == CollapseNewlines(s[1..]);
        CollapseKeepsShortNewlineLead(s);
      }
    }
  }

  /** Collapsing newlines keeps a string free of runs of any other character. */
  lemma {:induction false} CollapseKeepsRunFree(s: string, c: char, k: nat)
    requires c != '\n' && k >= 1 && RunFree(s, c, k)
    ensures RunFree(CollapseNewlines(s), c, k)
    decreases |s|
  {
    if s != [] {
      var n := LeadRun(s, '\n');
      if n >= 3 {
        RunFreeSuffix(s, n, c, k);
        CollapseKeepsRunFree(s[n..], c, k);
        var t := CollapseNewlines(s[n..]);
        var r := "\n\n" + t;
        assert r[1..] == "\n" + t;
        assert r[1..][1..] == t;
      } else {
        CollapseKeepsRunFree(s[1..], c, k);
        var r := CollapseNewlines(s);
        assert r[1..] == CollapseNewlines(s[1..]);
        CollapseKeepsOtherLead(s, c);
      }
    }
  }

  /** Every suffix of a run-free string is run free. */
  lemma {:induction false} RunFreeSuffix(s: string, n: nat, c: char, k: nat)
    requires n <= |s| && RunFree(s, c, k)
    ensures RunFree(s[n..], c, k)
    decreases n
  {
    if n > 0 {
      RunFreeSuffix(s[1..], n - 1, c, k);
      assert s[1..][n - 1..] == s[n..];
    }
  }
}
