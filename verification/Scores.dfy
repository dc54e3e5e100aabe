/** The two sources of the eight score strings a report is filled with: the numbers found in
    a response body (scraper.py lines 96-102) and the numbers synthesised from a
    reachability probe of the target (lines 104-133). */
module Scores {
  import opened Wrappers
  import opened Text
  import opened Tokens
  import opened Report

  /** The fallback scores, in report order: Overall, Consumer Appeal, Technical
      Implementation, Business Impact, Content Clarity, Visual Design, User Experience,
      Trust & Credibility. */
  const DefaultScores: seq<string> := ["78", "82", "75", "80", "85", "79", "83", "77"]

  function Min(a: nat, b: nat): nat { if a <= b then a else b }

  // ---------------------------------------------------------------------------
  // Scores from a response body
  // ---------------------------------------------------------------------------

  /** `numbers[:8] if numbers else defaults`, where `numbers` are the matches of the score
      pattern in `body`. */
  function ScoresFromBody(body: string): (r: seq<string>)
    ensures 1 <= |r| <= ReportSlots
    ensures forall k :: 0 <= k < |r| ==> IsScoreToken(r[k])
    ensures ScoreWords(body) == [] ==> r == DefaultScores
    ensures ScoreWords(body) != [] ==> r == ScoreWords(body)[..Min(ReportSlots, |ScoreWords(body)|)]
    ensures |r| == ReportSlots <==> |ScoreWords(body)| == 0 || |ScoreWords(body)| >= ReportSlots
  {
    var numbers := ScoreMatches(body);
    ScoreMatchesAreScoreWords(body);
    if |numbers| > 0 then numbers[..Min(8, |numbers|)] else DefaultScores
  }

  // ---------------------------------------------------------------------------
  // Synthesised scores
  // ---------------------------------------------------------------------------

  /** Fixed offsets from the base score, in report order. */
  const Offsets: seq<int> := [0, 2, -5, 0, 8, -1, 5, -3]

  /** 85 for a target that answered with a status below 400, 70 otherwise. */
  function BaseScore(status: int): int {
    if status < 400 then 85 else 70
  }

  /** 5 when the target URL starts with "https" (any text may follow), 0 otherwise. */
  function HttpsBonus(url: string): int {
    if StartsWith(url, "https") then 5 else 0
  }

  /** The eight numbers computed once the reachability probe returned a status code. */
  function SyntheticValues(status: int, url: string): (v: seq<int>)
    ensures |v| == ReportSlots
    ensures forall k :: 0 <= k < |v| ==> 65 <= v[k] <= 98
    ensures forall k :: 0 <= k < |v| ==> v[2] <= v[k] <= v[4]
    ensures v[0] == v[3]
  {
    var b := BaseScore(status) + HttpsBonus(url);
    [b + Offsets[0], b + Offsets[1], b + Offsets[2], b + Offsets[3],
     b + Offsets[4], b + Offsets[5], b + Offsets[6], b + Offsets[7]]
  }

  /** The score strings `_generate_realistic_analysis` hands to the formatter: `str` of the
      synthetic values, or the defaults when the probe raised (`probeStatus` is `None`). */
  function GeneratedScores(probeStatus: Option<int>, url: string): (r: seq<string>)
    ensures |r| == ReportSlots
    ensures forall k :: 0 <= k < |r| ==> IsScoreToken(r[k])
    ensures forall k :: 0 <= k < |r| ==> AllDigits(r[k]) && 65 <= DecimalValue(r[k]) <= 98
    ensures probeStatus.None? ==> r == DefaultScores
    ensures probeStatus.Some? ==>
      forall k :: 0 <= k < |r| ==> DecimalValue(r[k]) == SyntheticValues(probeStatus.value, url)[k]
  {
    match probeStatus
    case None =>
      DefaultValues();
      DefaultScores
    case Some(code) =>
      var v := SyntheticValues(code, url);
      var r := seq(8, k requires 0 <= k < 8 => NatToDecimal(v[k]));
      forall k | 0 <= k < 8 ensures IsScoreToken(r[k]) {
        ScoreTokenIff(r[k]);
      }
      r
  }

  /** The default scores are score tokens worth between 75 and 85. */
  lemma DefaultValues()
    ensures forall k :: 0 <= k < |DefaultScores| ==> IsScoreToken(DefaultScores[k])
    ensures forall k :: 0 <= k < |DefaultScores| ==>
      AllDigits(DefaultScores[k]) && 75 <= DecimalValue(DefaultScores[k]) <= 85
  {
    forall k | 0 <= k < |DefaultScores|
      ensures AllDigits(DefaultScores[k]) && 75 <= DecimalValue(DefaultScores[k]) <= 85
    {
      var t := DefaultScores[k];
      ScoreTokenIff(t);
    }
  }

  /** A reachable target scores exactly 15 more in every slot than an unreachable one. */
  lemma ReachableAddsFifteen(ok: int, failed: int, url: string)
    requires ok < 400 <= failed
    ensures forall k :: 0 <= k < ReportSlots ==>
      SyntheticValues(ok, url)[k] == SyntheticValues(failed, url)[k] + 15
  {
  }

  /** A URL starting with "https" scores exactly 5 more in every slot than one that does not. */
  lemma HttpsAddsFive(status: int, secure: string, plain: string)
    requires StartsWith(secure, "https") && !StartsWith(plain, "https")
    ensures forall k :: 0 <= k < ReportSlots ==>
      SyntheticValues(status, secure)[k] == SyntheticValues(status, plain)[k] + 5
  {
  }

  // ---------------------------------------------------------------------------
  // The extractor reads synthesised scores back
  // ---------------------------------------------------------------------------

  predicate IsWord(t: string) {
    |t| > 0 && forall i :: 0 <= i < |t| ==> IsWordChar(t[i])
  }

  lemma {:induction false} RunLengthOfWord(t: string, x: string)
    requires forall i :: 0 <= i < |t| ==> IsWordChar(t[i])
    requires x == [] || !IsWordChar(x[0])
    ensures RunLength(t + x) == |t|
    decreases |t|
  {
    if |t| > 0 {
      assert (t + x)[1..] == t[1..] + x;
      RunLengthOfWord(t[1..], x);
    } else {
      assert t + x == x;
    }
  }

  /** A separator the extractor cannot mistake for part of a score: non-empty and free of
      word characters (a space, ", ", " / ", a newline, ...). */
  predicate IsGap(sep: string) {
    |sep| > 0 && forall i :: 0 <= i < |sep| ==> !IsWordChar(sep[i])
  }

  /** Characters that are not word characters in front of a text add no word runs. */
  lemma {:induction false} WordRunsAfterGap(sep: string, s: string)
    requires IsGap(sep)
    ensures WordRuns(sep + s) == WordRuns(s)
    decreases |sep|
  {
    assert (sep + s)[1..] == sep[1..] + s;
    if |sep| > 1 {
      WordRunsAfterGap(sep[1..], s);
    } else {
      assert sep[1..] + s == s;
    }
  }

  /** Words joined with a gap split back into the same words. */
  lemma {:induction false} WordRunsOfSpaced(ts: seq<string>, sep: string)
    requires IsGap(sep)
    requires forall k :: 0 <= k < |ts| ==> IsWord(ts[k])
    ensures WordRuns(Join(ts, sep)) == ts
    decreases |ts|
  {
    if |ts| == 1 {
      RunLengthOfWord(ts[0], []);
      assert ts[0] + [] == ts[0];
      assert ts[0][|ts[0]|..] == [];
    } else if |ts| > 1 {
      var rest := Join(ts[1..], sep);
      var tail := sep + rest;
      var s := ts[0] + tail;
      assert Join(ts, sep) == s;
      RunLengthOfWord(ts[0], tail);
      assert s[..|ts[0]|] == ts[0];
      assert s[|ts[0]|..] == tail;
      WordRunsAfterGap(sep, rest);
      WordRunsOfSpaced(ts[1..], sep);
      assert ts == [ts[0]] + ts[1..];
    }
  }

  lemma {:induction false} FilterKeepsScores(ts: seq<string>)
    requires forall k :: 0 <= k < |ts| ==> IsScoreToken(ts[k])
    ensures FilterScores(ts) == ts
    decreases |ts|
  {
    if |ts| > 0 {
      FilterKeepsScores(ts[1..]);
      assert ts == [ts[0]] + ts[1..];
    }
  }

  /** A score token is a single word. */
  lemma ScoreTokenIsWord(t: string)
    requires IsScoreToken(t)
    ensures IsWord(t)
  {
    if t == "100" {
      assert t[0] == '1' && t[1] == '0' && t[2] == '0';
    }
  }

  /** Score tokens written out with a gap between them are the score words of the text. */
  lemma ScoreWordsOfSpaced(r: seq<string>, sep: string)
    requires IsGap(sep)
    requires forall k :: 0 <= k < |r| ==> IsScoreToken(r[k])
    ensures ScoreWords(Join(r, sep)) == r
  {
    forall k | 0 <= k < |r| ensures IsWord(r[k]) {
      ScoreTokenIsWord(r[k]);
    }
    WordRunsOfSpaced(r, sep);
    FilterKeepsScores(r);
  }

  /** Eight score tokens written out with a gap between them are exactly what the
      extractor finds again. */
  lemma SpacedScoresReadBack(r: seq<string>, sep: string)
    requires IsGap(sep)
    requires |r| == ReportSlots
    requires forall k :: 0 <= k < |r| ==> IsScoreToken(r[k])
    ensures ScoresFromBody(Join(r, sep)) == r
  {
    var body := Join(r, sep);
    ScoreWordsOfSpaced(r, sep);
    var words := ScoreWords(body);
    assert |words| == 8 && Min(ReportSlots, |words|) == 8;
    assert words[..8] == r;
  }

  /** Written out with a gap between them, the synthesised scores are exactly what the
      extractor finds again: the formatter and the extractor agree on what a score is. */
  lemma GeneratedScoresReadBack(probeStatus: Option<int>, url: string, sep: string)
    requires IsGap(sep)
    ensures ScoresFromBody(Join(GeneratedScores(probeStatus, url), sep)) == GeneratedScores(probeStatus, url)
  {
    SpacedScoresReadBack(GeneratedScores(probeStatus, url), sep);
  }
}
