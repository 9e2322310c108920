/**
 * The franchise flag of the cleaning script: `1` when the regular expression
 * `\b(ii|iii|iv|v|[2-9])\b` finds a match in the cleaned name, `0` otherwise.
 * The regex search is modelled as what it decides (some alternative occurs between two
 * word boundaries); a token-based reference definition (`str.split()` and membership) is
 * proved to agree with it on every cleaned name.
 */
module Franchise {
  import opened Text

  /** The regex class `\w` on ASCII: letters, digits and underscore. */
  predicate IsWordChar(c: char) {
    'a' <= c <= 'z' || 'A' <= c <= 'Z' || '0' <= c <= '9' || c == '_'
  }

  /** The alternatives of the group `(ii|iii|iv|v|[2-9])`. */
  const Alternatives: seq<string> := ["ii", "iii", "iv", "v", "2", "3", "4", "5", "6", "7", "8", "9"]

  /** `\b` at position `p`: exactly one of the characters around `p` is a word character. */
  predicate AtWordBoundary(s: string, p: int)
    requires 0 <= p <= |s|
  {
    (p > 0 && IsWordChar(s[p - 1])) != (p < |s| && IsWordChar(s[p]))
  }

  /** The regex matches `s` at position `i` taking alternative `t`. */
  predicate MatchesAt(s: string, t: string, i: int)
    requires 0 <= i <= |s|
  {
    i + |t| <= |s| && s[i..i + |t|] == t && AtWordBoundary(s, i) && AtWordBoundary(s, i + |t|)
  }

  /** `re.search(r"\b(ii|iii|iv|v|[2-9])\b", s)` finds a match. */
  predicate RegexSearch(s: string) {
    exists i, k | 0 <= i <= |s| && 0 <= k < |Alternatives| :: MatchesAt(s, Alternatives[k], i)
  }

  /** The `FranchiseTag` column for a cleaned name. */
  function FranchiseTag(name: string): (tag: int)
    ensures tag == 0 || tag == 1
    ensures IsCleaned(name) ==> (tag == 1 <==> HasFranchiseToken(name))
  {
    var tag := if RegexSearch(name) then 1 else 0;
    if IsCleaned(name) then RegexAgreesWithTokens(name); tag else tag
  }

  // Reference definition: the whitespace-separated words of the name.

  /** Length of the run of non-whitespace characters that begins `s`. */
  function RunLength(s: string): (n: nat)
    ensures n <= |s|
    ensures forall j :: 0 <= j < n ==> !IsSpace(s[j])
    ensures n < |s| ==> IsSpace(s[n])
    decreases |s|
  {
    if |s| == 0 || IsSpace(s[0]) then 0 else 1 + RunLength(s[1..])
  }

  /** The maximal runs of non-whitespace characters of `s`, left to right (`s.split()`). */
  function Tokens(s: string): (ts: seq<string>)
    ensures forall j :: 0 <= j < |ts| ==> |ts[j]| > 0
    decreases |s|
  {
    if |s| == 0 then []
    else if IsSpace(s[0]) then Tokens(s[1..])
    else
      var n := RunLength(s);
      [s[..n]] + Tokens(s[n..])
  }

  /** Some word of the name is a sequel marker: a roman numeral ii-v or a digit 2-9. */
  predicate HasFranchiseToken(s: string) {
    exists j | 0 <= j < |Tokens(s)| :: Tokens(s)[j] in Alternatives
  }

  /** A candidate made only of word characters, as every alternative is. */
  predicate IsWord(t: string) {
    |t| > 0 && forall j :: 0 <= j < |t| ==> IsWordChar(t[j]) && !IsSpace(t[j])
  }

  lemma AlternativesAreWords()
    ensures forall k :: 0 <= k < |Alternatives| ==> IsWord(Alternatives[k])
  {
  }

  /** A boundary inside a suffix `s[m..]` is a boundary of `s`, unless it sits at the start of the
      suffix right after a word character. */
  lemma BoundaryShift(s: string, m: int, j: int)
    requires 0 <= m <= |s| && 0 <= j <= |s| - m
    requires j > 0 || m == 0 || !IsWordChar(s[m - 1])
    ensures AtWordBoundary(s[m..], j) == AtWordBoundary(s, m + j)
  {
  }

  /** Every regex match of a word on a cleaned string is one of its tokens. */
  lemma {:induction false} MatchIsToken(s: string, t: string, i: int)
    requires IsCleaned(s) && IsWord(t)
    requires 0 <= i <= |s| && MatchesAt(s, t, i)
    ensures t in Tokens(s)
    decreases |s|
  {
    assert s[i] == t[0];
    if IsSpace(s[0]) {
      assert Tokens(s) == Tokens(s[1..]);
      MatchInTail(s, 1, t, i);
      MatchIsToken(s[1..], t, i - 1);
    } else {
      var n := RunLength(s);
      MatchAgainstFirstRun(s, t, i);
      assert Tokens(s) == [s[..n]] + Tokens(s[n..]);
      if i > 0 {
        MatchInTail(s, n, t, i);
        MatchIsToken(s[n..], t, i - n);
      }
    }
  }

  /** A match that starts inside the suffix `s[m..]`, after a non-word character or past its
      start, is a match of the suffix, and the suffix is still cleaned. */
  lemma MatchInTail(s: string, m: int, t: string, i: int)
    requires IsCleaned(s) && IsWord(t)
    requires 0 < m <= i <= |s| && MatchesAt(s, t, i)
    requires i > m || !IsWordChar(s[m - 1])
    ensures IsCleaned(s[m..]) && MatchesAt(s[m..], t, i - m)
  {
    SuffixSlice(s, m, i - m, i - m + |t|);
    BoundaryShift(s, m, i - m);
    BoundaryShift(s, m, i - m + |t|);
  }

  /** A match of a word on a cleaned string that starts with a word character either is the
      leading run or lies wholly after it. */
  lemma MatchAgainstFirstRun(s: string, t: string, i: int)
    requires IsCleaned(s) && IsWord(t) && |s| > 0 && !IsSpace(s[0])
    requires 0 <= i <= |s| && MatchesAt(s, t, i)
    ensures (i == 0 && t == s[..RunLength(s)]) || i > RunLength(s)
  {
    var n := RunLength(s);
    var m := |t|;
    assert s[i] == t[0] && s[i + m - 1] == t[m - 1];
    if 0 < i <= n {
      CleanedWordChar(s, i - 1);
    }
    if i == 0 && m < |s| {
      CleanedWordChar(s, m);
    }
    assert forall j :: i <= j < i + m ==> s[j] == t[j - i];
  }

  /** A slice of a suffix is a slice of the whole string. */
  lemma SuffixSlice(s: string, m: int, j: int, k: int)
    requires 0 <= m <= |s| && 0 <= j <= k <= |s| - m
    ensures s[m..][j..k] == s[m + j..m + k]
  {
  }

  /** In a cleaned string the word characters are exactly the non-whitespace ones. */
  lemma CleanedWordChar(s: string, j: int)
    requires IsCleaned(s) && 0 <= j < |s|
    ensures IsWordChar(s[j]) == !IsSpace(s[j])
  {
    assert IsKept(s[j]);
  }

  /** Every token of a cleaned string is a regex match at some position. */
  lemma {:induction false} TokenIsMatch(s: string, t: string) returns (i: int)
    requires IsCleaned(s) && IsWord(t)
    requires t in Tokens(s)
    ensures 0 <= i <= |s| && MatchesAt(s, t, i)
    decreases |s|
  {
    var m := TokenStep(s, t);
    if m == 0 {
      i := 0;
      assert MatchesAt(s, t, i) by { FirstRunMatches(s); }
    } else {
      assert IsCleaned(s[m..]) by { CleanedSuffix(s, m); }
      var j := TokenIsMatch(s[m..], t);
      i := m + j;
      assert MatchesAt(s, t, i) by {
        SuffixMatchPastStart(s, m, t, j);
        MatchInSuffix(s, m, t, j);
      }
    }
  }

  /** Where a token of `s` lies: either it is the leading run (result 0), or it is a token of
      the suffix after the leading space or run (the result, its start). */
  lemma TokenStep(s: string, t: string) returns (m: int)
    requires t in Tokens(s)
    ensures 0 <= m <= |s|
    ensures m == 0 ==> |s| > 0 && !IsSpace(s[0]) && t == s[..RunLength(s)]
    ensures m > 0 ==> t in Tokens(s[m..]) && |s| > 0
    ensures m > 0 ==> (IsSpace(s[0]) && m == 1) || (!IsSpace(s[0]) && m == RunLength(s))
  {
    assert |s| > 0;
    if IsSpace(s[0]) {
      m := 1;
    } else if t == s[..RunLength(s)] {
      m := 0;
    } else {
      m := RunLength(s);
      assert Tokens(s) == [s[..m]] + Tokens(s[m..]);
    }
  }

  /** A word matched in the suffix after the leading space or run does not start at its very
      first position when that position follows a word character. */
  lemma SuffixMatchPastStart(s: string, m: int, t: string, j: int)
    requires IsCleaned(s) && IsWord(t) && 0 < m <= |s| && 0 <= j <= |s| - m
    requires (IsSpace(s[0]) && m == 1) || (!IsSpace(s[0]) && m == RunLength(s))
    requires MatchesAt(s[m..], t, j)
    ensures j > 0 || m == 0 || !IsWordChar(s[m - 1])
  {
    assert s[m..][j] == s[m + j] == t[0];
    assert !IsSpace(t[0]);
    assert !IsSpace(s[0]) ==> IsSpace(s[m]);
  }

  lemma CleanedSuffix(s: string, m: int)
    requires IsCleaned(s) && 0 <= m <= |s|
    ensures IsCleaned(s[m..])
  {
  }

  /** The leading run of a cleaned string that starts with a word character is matched at 0. */
  lemma FirstRunMatches(s: string)
    requires IsCleaned(s) && |s| > 0 && !IsSpace(s[0])
    ensures MatchesAt(s, s[..RunLength(s)], 0)
  {
    var n := RunLength(s);
    assert IsWordChar(s[0]);
    assert IsWordChar(s[n - 1]);
    assert n < |s| ==> !IsWordChar(s[n]);
  }

  /** A match of a word in a suffix `s[m..]` is a match in `s`, unless it sits at the start of the
      suffix right after a word character. */
  lemma MatchInSuffix(s: string, m: int, t: string, j: int)
    requires 0 <= m <= |s| && 0 <= j <= |s| - m && IsWord(t)
    requires MatchesAt(s[m..], t, j)
    requires j > 0 || m == 0 || !IsWordChar(s[m - 1])
    ensures MatchesAt(s, t, m + j)
  {
    assert s[m + j..m + j + |t|] == s[m..][j..j + |t|];
    BoundaryShift(s, m, j);
    BoundaryShift(s, m, j + |t|);
  }

  /** On a cleaned name the regex search succeeds exactly when some whitespace-separated word
      is `ii`, `iii`, `iv`, `v` or a single digit 2-9. */
  lemma RegexAgreesWithTokens(s: string)
    requires IsCleaned(s)
    ensures RegexSearch(s) <==> HasFranchiseToken(s)
  {
    AlternativesAreWords();
    if RegexSearch(s) {
      var i, k :| 0 <= i <= |s| && 0 <= k < |Alternatives| && MatchesAt(s, Alternatives[k], i);
      MatchIsToken(s, Alternatives[k], i);
      var j :| 0 <= j < |Tokens(s)| && Tokens(s)[j] == Alternatives[k];
    }
    if HasFranchiseToken(s) {
      var j :| 0 <= j < |Tokens(s)| && Tokens(s)[j] in Alternatives;
      var k :| 0 <= k < |Alternatives| && Alternatives[k] == Tokens(s)[j];
      var i := TokenIsMatch(s, Alternatives[k]);
    }
  }

  /** A name without whitespace is a single token. */
  lemma {:induction false} SingleToken(s: string)
    requires |s| > 0 && forall j :: 0 <= j < |s| ==> !IsSpace(s[j])
    ensures Tokens(s) == [s]
  {
    assert !IsSpace(s[0]);
    assert RunLength(s) == |s|;
    assert s[..|s|] == s;
    assert Tokens(s[|s|..]) == [];
  }

  /** A multi-digit number or a numeral beyond v is no sequel marker: "10" and "vi" give 0. */
  lemma NotFranchiseExamples()
    ensures FranchiseTag("10") == 0
    ensures FranchiseTag("vi") == 0
  {
    NotFranchiseWord("10");
    NotFranchiseWord("vi");
  }

  lemma NotFranchiseWord(s: string)
    requires |s| > 0 && IsCleaned(s) && forall j :: 0 <= j < |s| ==> !IsSpace(s[j])
    requires s !in Alternatives
    ensures FranchiseTag(s) == 0
  {
    SingleToken(s);
  }

  /** A numeral standing as its own word marks a sequel. */
  lemma FranchiseExample()
    ensures FranchiseTag("halo 3") == 1
  {
    var s := "halo 3";
    assert IsCleaned(s);
    assert s[4] == ' ' && IsSpace(s[4]);
    assert s[5..6] == "3";
    assert MatchesAt(s, Alternatives[5], 5);
  }
}
