/** Literal substring matching as Python's str does it: `pat in text` and
    `text.count(pat)`, the non-overlapping left-to-right count. */
module Occurrences {

  /** `pat in text`: pat starts at some position of text. */
  predicate Contains(text: string, pat: string)
    decreases |text|
  {
    pat <= text || (|text| > 0 && Contains(text[1..], pat))
  }

  /** pat occupies the window of text that starts at position i. */
  predicate MatchAt(text: string, pat: string, i: int) {
    0 <= i && i + |pat| <= |text| && text[i..i + |pat|] == pat
  }

  /** `pat in text` holds exactly when some window of text equals pat. */
  lemma {:induction false} ContainsWindow(text: string, pat: string)
    ensures Contains(text, pat) <==> exists i :: MatchAt(text, pat, i)
    decreases |text|
  {
    if pat <= text {
      assert MatchAt(text, pat, 0);
    } else if |text| > 0 {
      ContainsWindow(text[1..], pat);
      if Contains(text[1..], pat) {
        var i :| MatchAt(text[1..], pat, i);
        assert text[1..][i..i + |pat|] == text[i + 1..i + 1 + |pat|];
        assert MatchAt(text, pat, i + 1);
      }
      if exists i :: MatchAt(text, pat, i) {
        var i :| MatchAt(text, pat, i);
        assert i > 0;
        assert text[1..][i - 1..i - 1 + |pat|] == text[i..i + |pat|];
        assert MatchAt(text[1..], pat, i - 1);
      }
    }
  }

  /** `text.count(pat)` for a non-empty pat: scan left to right, and after a
      match resume right behind it, so matches never overlap. */
  function CountOcc(text: string, pat: string): nat
    requires |pat| > 0
    decreases |text|
  {
    if |text| < |pat| then 0
    else if pat <= text then 1 + CountOcc(text[|pat|..], pat)
    else CountOcc(text[1..], pat)
  }

  /** `text.count(pat)`, including Python's rule that the empty string
      occurs once before every character and once at the end. */
  function PyCount(text: string, pat: string): nat {
    if pat == [] then |text| + 1 else CountOcc(text, pat)
  }

  /** The count is positive exactly when the pattern occurs. */
  lemma {:induction false} CountPositiveIffContains(text: string, pat: string)
    ensures PyCount(text, pat) > 0 <==> Contains(text, pat)
    decreases |text|
  {
    if pat != [] && |text| > 0 && !(pat <= text) {
      CountPositiveIffContains(text[1..], pat);
    }
  }

  /** Matches do not overlap, so they fit into the text side by side. */
  lemma {:induction false} CountFits(text: string, pat: string)
    requires |pat| > 0
    ensures CountOcc(text, pat) * |pat| <= |text|
    decreases |text|
  {
    if |text| >= |pat| {
      if pat <= text {
        var rest := text[|pat|..];
        CountFits(rest, pat);
        var c := CountOcc(rest, pat);
        assert CountOcc(text, pat) == 1 + c;
        assert (1 + c) * |pat| == |pat| + c * |pat|;
      } else {
        CountFits(text[1..], pat);
      }
    }
  }

  /** n copies of pat laid end to end. */
  function Repeat(pat: string, n: nat): string {
    if n == 0 then [] else pat + Repeat(pat, n - 1)
  }

  /** n back-to-back copies of pat count as exactly n occurrences. */
  lemma {:induction false} CountRepeated(pat: string, n: nat)
    requires |pat| > 0
    ensures CountOcc(Repeat(pat, n), pat) == n
  {
    if n > 0 {
      var rest := Repeat(pat, n - 1);
      assert pat <= pat + rest;
      assert (pat + rest)[|pat|..] == rest;
      CountRepeated(pat, n - 1);
    }
  }

  /** Overlapping windows count once: "aa" sits at positions 0 and 1 of
      "aaa", yet "aaa".count("aa") is 1. */
  lemma OverlapCountsOnce()
    ensures "aaa"[0..2] == "aa" && "aaa"[1..3] == "aa"
    ensures PyCount("aaa", "aa") == 1
  {
    assert "aaa"[2..] == "a";
  }
}
