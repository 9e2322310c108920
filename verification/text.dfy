/**
 * Text normalisation of the cleaning script: `clean_text` lower-cases a cell, strips
 * surrounding whitespace and then deletes every character outside `[a-z0-9\s]`.
 * Character classes follow Python's `str` methods and `re` restricted to ASCII.
 */
module Text {
  import opened Wrappers
  import opened Seqs

  /** Whitespace as `str.isspace`, `str.strip` and the regex class `\s` see it on ASCII:
      tab, line feed, vertical tab, form feed, carriage return (9-13), the information
      separators (28-31) and space (32). */
  predicate IsSpace(c: char) {
    9 <= c as int <= 13 || 28 <= c as int <= 32
  }

  predicate IsUpper(c: char) { 'A' <= c <= 'Z' }

  predicate IsLowerLetter(c: char) { 'a' <= c <= 'z' }

  predicate IsDigit(c: char) { '0' <= c <= '9' }

  /** The characters the pattern `[^a-z0-9\s]` does not delete. */
  predicate IsKept(c: char) {
    IsLowerLetter(c) || IsDigit(c) || IsSpace(c)
  }

  /** Every character is one `clean_text` keeps. */
  predicate IsCleaned(s: string) {
    forall i :: 0 <= i < |s| ==> IsKept(s[i])
  }

  /** `str.lower` on one ASCII character. */
  function LowerChar(c: char): (d: char)
    ensures !IsUpper(d)
    ensures IsUpper(c) ==> d as int == c as int + 32
    ensures !IsUpper(c) ==> d == c
  {
    if IsUpper(c) then (c as int + 32) as char else c
  }

  /** `str.lower` on ASCII text: upper-case letters become lower case, nothing else changes. */
  function Lower(s: string): (r: string)
    ensures |r| == |s|
    ensures forall i :: 0 <= i < |s| ==> r[i] == LowerChar(s[i])
  {
    seq(|s|, i requires 0 <= i < |s| => LowerChar(s[i]))
  }

  predicate AllSpace(s: string) {
    forall i :: 0 <= i < |s| ==> IsSpace(s[i])
  }

  /** `r` is what remains of `s` after removing the whitespace prefix `s[..a]` and a whitespace suffix. */
  ghost predicate StripsTo(s: string, a: int, r: string) {
    0 <= a <= |s| - |r| && r == s[a..a + |r|] && AllSpace(s[..a]) && AllSpace(s[a + |r|..])
  }

  /** `str.lstrip`. */
  function TrimStart(s: string): (r: string)
    ensures |r| <= |s| && r == s[|s| - |r|..]
    ensures AllSpace(s[..|s| - |r|])
    ensures |r| > 0 ==> !IsSpace(r[0])
    decreases |s|
  {
    if |s| > 0 && IsSpace(s[0]) then TrimStart(s[1..]) else s
  }

  /** `str.rstrip`. */
  function TrimEnd(s: string): (r: string)
    ensures |r| <= |s| && r == s[..|r|]
    ensures AllSpace(s[|r|..])
    ensures |r| > 0 ==> !IsSpace(r[|r| - 1])
    decreases |s|
  {
    if |s| > 0 && IsSpace(s[|s| - 1]) then TrimEnd(s[..|s| - 1]) else s
  }

  /** `str.strip`: the unique infix of `s` that has no whitespace at either end and
      whose removed prefix and suffix are whitespace only. */
  function Strip(s: string): (r: string)
    ensures |r| <= |s|
    ensures exists a :: StripsTo(s, a, r)
    ensures |r| > 0 ==> !IsSpace(r[0]) && !IsSpace(r[|r| - 1])
  {
    var t := TrimStart(s);
    var r := TrimEnd(t);
    var a := |s| - |t|;
    assert r == s[a..a + |r|];
    assert s[a + |r|..] == t[|r|..];
    assert StripsTo(s, a, r);
    r
  }

  /** `re.sub(r"[^a-z0-9\s]", "", x)`. */
  function DeleteUnkept(s: string): (r: string)
    ensures IsCleaned(r)
    ensures IsSubseq(r, s)
    ensures forall c :: multiset(r)[c] == if IsKept(c) then multiset(s)[c] else 0
  {
    Filter(s, IsKept)
  }

  /** `clean_text`: a missing cell becomes the empty string; otherwise lower, strip, then delete. */
  function CleanText(x: Option<string>): (r: string)
    ensures x.None? ==> r == ""
    ensures IsCleaned(r)
    ensures x.Some? ==> IsSubseq(r, Strip(Lower(x.value)))
    ensures x.Some? ==> |r| <= |x.value|
    ensures x.Some? ==> forall c :: multiset(r)[c] == if IsKept(c) then multiset(Strip(Lower(x.value)))[c] else 0
  {
    match x
    case None => ""
    case Some(s) =>
      var r := DeleteUnkept(Strip(Lower(s)));
      SubseqLength(r, Strip(Lower(s)));
      r
  }

  /** Stripping a string that has no whitespace at either end changes nothing. */
  lemma StripFixed(s: string)
    requires |s| > 0 ==> !IsSpace(s[0]) && !IsSpace(s[|s| - 1])
    ensures Strip(s) == s
  {
  }

  /** `str.strip` is idempotent. */
  lemma StripIdempotent(s: string)
    ensures Strip(Strip(s)) == Strip(s)
  {
    StripFixed(Strip(s));
  }

  /** Whatever `Strip` keeps comes from its input. */
  lemma StripMembers(s: string)
    ensures forall i :: 0 <= i < |Strip(s)| ==> Strip(s)[i] in s
  {
    var r := Strip(s);
    var a :| StripsTo(s, a, r);
    forall i | 0 <= i < |r| ensures r[i] in s {
      assert r[i] == s[a + i];
    }
  }

  /** Lower-casing text that has no upper-case letter changes nothing. */
  lemma LowerFixed(s: string)
    requires forall i :: 0 <= i < |s| ==> !IsUpper(s[i])
    ensures Lower(s) == s
  {
    assert forall i :: 0 <= i < |s| ==> Lower(s)[i] == s[i];
  }

  /** On text `clean_text` already produced, a second pass only strips: lower-casing and
      deletion have nothing left to do, but the first pass stripped before it deleted. */
  lemma CleanTextTwice(x: Option<string>)
    ensures CleanText(Some(CleanText(x))) == Strip(CleanText(x))
  {
    CleanTextOfCleaned(CleanText(x));
  }

  /** On text made only of kept characters, `clean_text` is `strip`. */
  lemma CleanTextOfCleaned(y: string)
    requires IsCleaned(y)
    ensures CleanText(Some(y)) == Strip(y)
  {
    LowerFixed(y);
    var z := Strip(y);
    StripMembers(y);
    assert IsCleaned(z);
    FilterAll(z, IsKept);
    assert DeleteUnkept(Strip(Lower(y))) == DeleteUnkept(z);
  }

  /** `clean_text` is not idempotent: deleting `!` after stripping exposes a leading space. */
  lemma CleanTextNotIdempotent()
    ensures CleanText(Some("! a")) == " a"
    ensures CleanText(Some(" a")) == "a"
  {
    FirstPassExample();
    SecondPassExample();
  }

  lemma FirstPassExample()
    ensures CleanText(Some("! a")) == " a"
  {
    var s := "! a";
    assert Strip(Lower(s)) == s by {
      LowerFixed(s);
      assert TrimStart(s) == s by { assert !IsSpace('!'); }
      assert TrimEnd(s) == s by { assert !IsSpace('a'); }
    }
    assert DeleteUnkept(s) == " a" by {
      DeletionExample();
    }
  }

  lemma DeletionExample()
    ensures Filter("! a", IsKept) == " a"
  {
    assert !IsKept('!') && IsKept(' ') && IsKept('a');
    DropFirstOfThree('!', ' ', 'a');
    assert "! a" == ['!', ' ', 'a'] && " a" == [' ', 'a'];
  }

  /** Deleting a three-character string whose first character alone is not kept. */
  lemma DropFirstOfThree(a: char, b: char, c: char)
    requires !IsKept(a) && IsKept(b) && IsKept(c)
    ensures Filter([a, b, c], IsKept) == [b, c]
  {
    var empty: string := [];
    assert Filter(empty, IsKept) == [];
    FilterCons(c, empty, IsKept);
    assert [c] + empty == [c];
    FilterCons(b, [c], IsKept);
    assert [b] + [c] == [b, c];
    FilterCons(a, [b, c], IsKept);
    assert [a] + [b, c] == [a, b, c];
  }

  lemma SecondPassExample()
    ensures CleanText(Some(" a")) == "a"
  {
    var t := " a";
    assert Strip(Lower(t)) == "a" by {
      LowerFixed(t);
      assert TrimStart(t) == "a" by {
        assert t[1..] == "a";
        assert !IsSpace('a');
      }
      assert TrimEnd("a") == "a" by { assert !IsSpace('a'); }
    }
    assert DeleteUnkept("a") == "a" by {
      assert IsKept('a');
      FilterCons('a', "", IsKept);
      assert "a" == ['a'] + "";
    }
  }

  /** Lower-casing twice is lower-casing once. */
  lemma LowerIdempotent(s: string)
    ensures Lower(Lower(s)) == Lower(s)
  {
    LowerFixed(Lower(s));
  }

  /** `clean_text` ignores case: text and its lower-cased form clean alike. */
  lemma CaseInsensitive(s: string)
    ensures CleanText(Some(s)) == CleanText(Some(Lower(s)))
  {
    LowerIdempotent(s);
  }

  /** Cleaned text without whitespace at either end is a fixed point of `clean_text`. */
  lemma CleanTextFixed(s: string)
    requires IsCleaned(s)
    requires |s| > 0 ==> !IsSpace(s[0]) && !IsSpace(s[|s| - 1])
    ensures CleanText(Some(s)) == s
  {
    LowerFixed(s);
    StripFixed(s);
    FilterAll(s, IsKept);
  }

  /** Two passes reach a fixed point: a third pass of `clean_text` changes nothing. */
  lemma CleanTextStable(x: Option<string>)
    ensures CleanText(Some(CleanText(Some(CleanText(x))))) == CleanText(Some(CleanText(x)))
  {
    var y := CleanText(x);
    CleanTextTwice(x);
    CleanTextTwice(Some(y));
    StripIdempotent(y);
  }
}
