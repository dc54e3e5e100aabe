/** The score pattern `\b([6-9]\d|100)\b` as `re.findall` applies it (scraper.py line 99),
    and the reading of it the rest of the model relies on: the matches are exactly the
    maximal runs of word characters that spell a number from 60 to 100. */
module Tokens {
  import opened Wrappers
  import opened Text

  // ---------------------------------------------------------------------------
  // Reference reading: maximal word runs
  // ---------------------------------------------------------------------------

  /** Length of the run of word characters at the front of `s`. */
  function RunLength(s: string): (n: nat)
    ensures n <= |s|
    ensures forall i :: 0 <= i < n ==> IsWordChar(s[i])
    ensures n == |s| || !IsWordChar(s[n])
    decreases |s|
  {
    if |s| > 0 && IsWordChar(s[0]) then 1 + RunLength(s[1..]) else 0
  }

  /** The maximal runs of word characters of `s`, left to right. */
  function WordRuns(s: string): (runs: seq<string>)
    decreases |s|
  {
    if |s| == 0 then []
    else if !IsWordChar(s[0]) then WordRuns(s[1..])
    else
      var n := RunLength(s);
      [s[..n]] + WordRuns(s[n..])
  }

  /** A token the score pattern accepts as a whole word: two digits starting with 6-9, or "100". */
  predicate IsScoreToken(t: string) {
    (|t| == 2 && '6' <= t[0] <= '9' && IsDigit(t[1])) || t == "100"
  }

  function FilterScores(ts: seq<string>): (r: seq<string>)
    ensures forall k :: 0 <= k < |r| ==> IsScoreToken(r[k])
    decreases |ts|
  {
    if |ts| == 0 then []
    else (if IsScoreToken(ts[0]) then [ts[0]] else []) + FilterScores(ts[1..])
  }

  /** The word runs of `s` that are score tokens, in order. */
  function ScoreWords(s: string): seq<string> {
    FilterScores(WordRuns(s))
  }

  // ---------------------------------------------------------------------------
  // The regular expression engine's view
  // ---------------------------------------------------------------------------

  /** `\b` at position `i`: exactly one of the neighbouring characters is a word character. */
  predicate IsBoundary(s: string, i: nat)
    requires i <= |s|
  {
    (i > 0 && IsWordChar(s[i - 1])) != (i < |s| && IsWordChar(s[i]))
  }

  /** One match attempt of `\b([6-9]\d|100)\b` at position `i`: the end of the match,
      trying the alternatives in order and backtracking into the second when the closing
      `\b` fails after the first. */
  function MatchAt(s: string, i: nat): (m: Option<nat>)
    requires i <= |s|
    ensures m.Some? ==> i < m.value <= |s|
  {
    if !IsBoundary(s, i) then None
    else if i + 2 <= |s| && '6' <= s[i] <= '9' && IsDigit(s[i + 1]) && IsBoundary(s, i + 2) then Some(i + 2)
    else if i + 3 <= |s| && s[i..i + 3] == "100" && IsBoundary(s, i + 3) then Some(i + 3)
    else None
  }

  /** `re.findall` from position `i`: a match is kept and the search resumes at its end;
      otherwise the search moves one character on. The pattern never matches the empty
      string, so the search stops at the end of the text. */
  function FindAllFrom(s: string, i: nat): seq<string>
    requires i <= |s|
    decreases |s| - i
  {
    if i == |s| then []
    else match MatchAt(s, i)
      case Some(j) => [s[i..j]] + FindAllFrom(s, j)
      case None => FindAllFrom(s, i + 1)
  }

  /** `re.findall(r'\b([6-9]\d|100)\b', s)` */
  function ScoreMatches(s: string): seq<string> {
    FindAllFrom(s, 0)
  }

  // ---------------------------------------------------------------------------
  // The two views agree
  // ---------------------------------------------------------------------------

  /** Position `i` is not strictly inside a run of word characters. */
  predicate NotInsideRun(s: string, i: nat)
    requires i <= |s|
  {
    i == 0 || i == |s| || !IsWordChar(s[i - 1]) || !IsWordChar(s[i])
  }

  /** Inside a run of word characters no match can start. */
  lemma {:induction false} SkipInsideRun(s: string, k: nat, e: nat)
    requires 0 < k <= e <= |s|
    requires forall j :: k - 1 <= j < e ==> IsWordChar(s[j])
    ensures FindAllFrom(s, k) == FindAllFrom(s, e)
    decreases e - k
  {
    if k < e {
      assert !IsBoundary(s, k);
      SkipInsideRun(s, k + 1, e);
    }
  }

  /** At the start of a run `s[i..e]`, the pattern matches exactly the whole run, and only
      when the run is a score token. */
  lemma MatchAtRunStart(s: string, i: nat, e: nat)
    requires i < e <= |s|
    requires i == 0 || !IsWordChar(s[i - 1])
    requires forall j :: i <= j < e ==> IsWordChar(s[j])
    requires e == |s| || !IsWordChar(s[e])
    ensures MatchAt(s, i) == if IsScoreToken(s[i..e]) then Some(e) else None
  {
    assert IsBoundary(s, i);
    // a word character at position j < |s| means the run reaches past j
    assert forall j :: i <= j < |s| && IsWordChar(s[j]) && (forall k :: i <= k < j ==> IsWordChar(s[k])) ==> j < e;
    assert i + 2 < e ==> IsWordChar(s[i + 2]);
    assert i + 3 < e ==> IsWordChar(s[i + 3]);
    assert i + 3 <= |s| ==> s[i..i + 3] == [s[i], s[i + 1], s[i + 2]];
    var t := s[i..e];
    if |t| == 2 {
      assert t == [s[i], s[i + 1]];
    }
    if |t| == 3 {
      assert t == [s[i], s[i + 1], s[i + 2]];
    }
  }

  lemma {:induction false} FindAllFromIsScoreWords(s: string, i: nat)
    requires i <= |s|
    requires NotInsideRun(s, i)
    ensures FindAllFrom(s, i) == ScoreWords(s[i..])
    decreases |s| - i
  {
    var rest := s[i..];
    if i == |s| {
      assert rest == [];
    } else if !IsWordChar(s[i]) {
      assert MatchAt(s, i) == None by {
        assert i + 3 <= |s| ==> s[i..i + 3][0] == s[i];
      }
      assert rest[1..] == s[i + 1..];
      FindAllFromIsScoreWords(s, i + 1);
    } else {
      var n := RunLength(rest);
      var e := i + n;
      assert n > 0;
      forall j | i <= j < e ensures IsWordChar(s[j]) {
        assert s[j] == rest[j - i];
      }
      assert e == |s| || !IsWordChar(s[e]) by {
        if e < |s| {
          assert s[e] == rest[n];
        }
      }
      assert rest[..n] == s[i..e];
      assert rest[n..] == s[e..];
      assert WordRuns(rest) == [s[i..e]] + WordRuns(s[e..]);
      MatchAtRunStart(s, i, e);
      FindAllFromIsScoreWords(s, e);
      if !IsScoreToken(s[i..e]) {
        SkipInsideRun(s, i + 1, e);
      }
    }
  }

  /** The matches of the score pattern are exactly the maximal word runs that spell a
      score token, in order of occurrence. */
  lemma ScoreMatchesAreScoreWords(s: string)
    ensures ScoreMatches(s) == ScoreWords(s)
  {
    FindAllFromIsScoreWords(s, 0);
    assert s[0..] == s;
  }

  /** A run of word characters is a score token exactly when it is the canonical decimal
      spelling of a number from 60 to 100; so "850", "085" and "a85" are never scores. */
  lemma ScoreTokenIff(t: string)
    ensures IsScoreToken(t) <==> IsCanonicalDecimal(t) && 60 <= DecimalValue(t) <= 100
  {
    if |t| == 1 && IsDigit(t[0]) {
      assert t[..0] == [];
      assert DecimalValue(t) == DigitValue(t[0]);
    }
    if |t| == 2 && IsDigit(t[0]) && IsDigit(t[1]) {
      assert DecimalValue(t[..1]) == DigitValue(t[0]) by {
        assert t[..1][..0] == [];
      }
      assert DecimalValue(t) == DigitValue(t[0]) * 10 + DigitValue(t[1]);
    }
    if |t| == 3 && AllDigits(t) {
      var d0, d1, d2 := DigitValue(t[0]), DigitValue(t[1]), DigitValue(t[2]);
      assert DecimalValue(t[..1]) == d0 by {
        assert t[..1][..0] == [];
      }
      assert DecimalValue(t[..2]) == d0 * 10 + d1 by {
        assert t[..2][..1] == t[..1];
      }
      assert DecimalValue(t) == d0 * 100 + d1 * 10 + d2;
      assert t == [t[0], t[1], t[2]];
    }
    if |t| >= 4 && AllDigits(t) && t[0] != '0' {
      CanonicalLowerBound(t);
      Pow10Monotone(3, |t| - 1);
      assert DecimalValue(t) >= 1000;
    }
  }

  lemma {:induction false} Pow10Monotone(a: nat, b: nat)
    requires a <= b
    ensures Pow10(a) <= Pow10(b)
    decreases b
  {
    if a < b {
      Pow10Monotone(a, b - 1);
    }
  }

  /** Concrete cases: digits glued to other word characters are not scores. */
  lemma NoScoreInsideLongerWords()
    ensures ScoreMatches("850") == []
    ensures ScoreMatches("a85") == []
    ensures ScoreMatches("085") == []
  {
    assert MatchAt("850", 0) == None;
    assert MatchAt("850", 1) == None;
    assert MatchAt("850", 2) == None;
    assert MatchAt("a85", 0) == None;
    assert MatchAt("a85", 1) == None;
    assert MatchAt("a85", 2) == None;
    assert MatchAt("085", 0) == None;
    assert MatchAt("085", 1) == None;
    assert MatchAt("085", 2) == None;
  }

  /** A number next to punctuation is a score, and the search resumes after each match. */
  lemma ScoresBetweenPunctuation()
    ensures ScoreMatches("85/100") == ["85", "100"]
  {
    var s := "85/100";
    assert MatchAt(s, 0) == Some(2);
    assert MatchAt(s, 2) == None;
    assert s[3..6] == "100";
    assert MatchAt(s, 3) == Some(6);
    assert FindAllFrom(s, 6) == [];
    assert FindAllFrom(s, 3) == ["100"];
    assert FindAllFrom(s, 2) == ["100"];
    assert s[0..2] == "85";
    assert FindAllFrom(s, 0) == ["85"] + ["100"];
  }
}
