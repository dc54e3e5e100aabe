/** `_format_analysis` (scraper.py lines 135-171): the fixed report with a header naming the
    URL, a company name, and eight labelled score slots. */
module Report {
  import opened Wrappers
  import opened Text
  import opened Urls

  /** How many scores a report shows. */
  const ReportSlots: nat := 8

  /** The label of score slot `i`, in the order the report shows them. */
  function Label(i: nat): string
    requires i < ReportSlots
  {
    if i == 0 then "Overall"
    else if i == 1 then "Consumer Appeal"
    else if i == 2 then "Technical Implementation"
    else if i == 3 then "Business Impact"
    else if i == 4 then "Content Clarity"
    else if i == 5 then "Visual Design"
    else if i == 6 then "User Experience"
    else "Trust & Credibility"
  }

  const HeaderPrefix: string := "UI/UX Analysis Report for "

  /** The message of the `IndexError` raised when fewer than eight scores are given. */
  const IndexErrorMessage: string := "list index out of range"

  /** The line showing score slot `i`. */
  function ScoreLine(i: nat, score: string): string
    requires i < ReportSlots
  {
    Label(i) + " Score: " + score
  }

  /** The fixed sentences of the report: entry 0 follows the company name in the overview,
      entry `i` (1 to 7) follows score line `i`; the section headings and the closing line
      are part of the entries they follow. */
  const Sentences: seq<string> := [
    " demonstrates solid digital presence with professional design and user experience implementation."
      + "\n\n=== USER EXPERIENCE ANALYSIS ===\n\n",
    "\nThe website effectively communicates value propositions with clear messaging and intuitive navigation patterns.\n\n",
    "\nTechnical architecture shows good optimization with responsive design and performance considerations.\n\n",
    "\nStrong business model communication with clear conversion optimization strategies."
      + "\n\n=== DESIGN & USABILITY METRICS ===\n\n",
    "\nInformation architecture is well-organized with logical content hierarchy and navigation structure.\n\n",
    "\nModern design aesthetic with consistent branding and effective use of visual elements.\n\n",
    "\nWell-planned user journeys with minimal friction points and intuitive interaction design.\n\n",
    "\nProfessional presentation with appropriate trust signals and credibility elements."
      + "\n\nAnalysis complete with actionable insights for optimization opportunities."
  ]

  /** A wording the template can be filled with: one sentence per score slot. */
  predicate IsWording(sentences: seq<string>) {
    |sentences| == ReportSlots
  }

  /** The words that introduce the company name after the Overall line. */
  const OverviewLead: string := "\n\nWebsite Overview: "

  /** The text between score line `i` and the next one (after the last, the closing
      sentence). Only the first names the company. */
  function Gap(i: nat, company: string, sentences: seq<string>): string
    requires i < ReportSlots && IsWording(sentences)
  {
    if i == 0 then OverviewLead + company + sentences[0] else sentences[i]
  }

  /** Score slot `i` of the report: its score line followed by the text after it. */
  function Slot(i: nat, company: string, score: string, sentences: seq<string>): string
    requires i < ReportSlots && IsWording(sentences)
  {
    ScoreLine(i, score) + Gap(i, company, sentences)
  }

  /** The report cut into its pieces: the header, then one piece per score slot. */
  function Pieces(url: string, company: string, scores: seq<string>, sentences: seq<string>): (ps: seq<string>)
    requires |scores| >= ReportSlots && IsWording(sentences)
    ensures |ps| == ReportSlots + 1
    ensures ps[0] == HeaderPrefix + url + "\n\n"
    ensures forall i :: 0 <= i < ReportSlots ==> ps[i + 1] == Slot(i, company, scores[i], sentences)
  {
    [HeaderPrefix + url + "\n\n"] + seq(8, i requires 0 <= i < 8 => Slot(i, company, scores[i], sentences))
  }

  /** The report text for a company name, at least eight scores and a wording. */
  function Render(url: string, company: string, scores: seq<string>, sentences: seq<string>): (report: string)
    requires |scores| >= ReportSlots && IsWording(sentences)
    ensures StartsWith(report, HeaderPrefix + url + "\n\n")
  {
    var ps := Pieces(url, company, scores, sentences);
    ConcatPieceAt(ps, 0);
    assert ps[..0] == [];
    Concat(ps)
  }

  /** Where score line `i` starts in the rendered report. */
  function LineStart(url: string, company: string, scores: seq<string>, sentences: seq<string>, i: nat): nat
    requires |scores| >= ReportSlots && IsWording(sentences) && i < ReportSlots
  {
    |Concat(Pieces(url, company, scores, sentences)[..i + 1])|
  }

  /** `_format_analysis(url, scores)`: the netloc is parsed first (which may raise), then
      the template reads `scores[0]` to `scores[7]` (which raises with fewer than eight). */
  function FormatAnalysis(url: string, scores: seq<string>): (r: Result<string>)
    ensures r.Ok? <==> Netloc(url).Ok? && |scores| >= ReportSlots
    ensures Netloc(url).Err? ==> r == Err(InvalidIPv6Message)
    ensures Netloc(url).Ok? && |scores| < ReportSlots ==> r == Err(IndexErrorMessage)
    ensures r.Ok? ==> StartsWith(r.value, HeaderPrefix + url)
  {
    match Netloc(url)
    case Err(e) => Err(e)
    case Ok(netloc) =>
      if |scores| < ReportSlots then Err(IndexErrorMessage)
      else
        var report := Render(url, CompanyName(netloc), scores, Sentences);
        assert StartsWith(report, HeaderPrefix + url) by {
          StartsWithTrans(report, HeaderPrefix + url + "\n\n", HeaderPrefix + url);
        }
        Ok(report)
  }

  /** A formatted report is the rendering of the URL's company name and the given scores
      with the source's wording. */
  lemma FormatAnalysisRenders(url: string, scores: seq<string>)
    requires Netloc(url).Ok? && |scores| >= ReportSlots
    ensures FormatAnalysis(url, scores) == Ok(Render(url, CompanyName(Netloc(url).value), scores, Sentences))
  {
  }

  /** Where score line `i` starts in the report `_format_analysis(url, scores)` returns. */
  function ReportLineStart(url: string, scores: seq<string>, i: nat): nat
    requires Netloc(url).Ok? && |scores| >= ReportSlots && i < ReportSlots
  {
    LineStart(url, CompanyName(Netloc(url).value), scores, Sentences, i)
  }

  /** When the netloc parses and there are at least eight scores, the report is formatted;
      in it score `i` stands after label `i` and " Score: " at the start of line `i`, and the
      eight lines come in label order without overlapping. */
  lemma FormattedScoreLines(url: string, scores: seq<string>)
    requires Netloc(url).Ok? && |scores| >= ReportSlots
    ensures FormatAnalysis(url, scores).Ok?
    ensures forall i :: 0 <= i < ReportSlots ==>
      OccursAt(FormatAnalysis(url, scores).value, ReportLineStart(url, scores, i), ScoreLine(i, scores[i]))
    ensures forall i, j :: 0 <= i < j < ReportSlots ==>
      ReportLineStart(url, scores, i) + |ScoreLine(i, scores[i])| <= ReportLineStart(url, scores, j)
  {
    var company := CompanyName(Netloc(url).value);
    FormatAnalysisRenders(url, scores);
    forall i | 0 <= i < ReportSlots
      ensures OccursAt(FormatAnalysis(url, scores).value, ReportLineStart(url, scores, i), ScoreLine(i, scores[i]))
    {
      RenderShowsScore(url, company, scores, Sentences, i);
    }
    forall i, j | 0 <= i < j < ReportSlots
      ensures ReportLineStart(url, scores, i) + |ScoreLine(i, scores[i])| <= ReportLineStart(url, scores, j)
    {
      RenderLinesOrdered(url, company, scores, Sentences, i, j);
    }
  }

  /** Score `i` stands in the report right after label `i` and " Score: ", at the start of
      line `i`. */
  lemma RenderShowsScore(url: string, company: string, scores: seq<string>, sentences: seq<string>, i: nat)
    requires |scores| >= ReportSlots && IsWording(sentences) && i < ReportSlots
    ensures OccursAt(Render(url, company, scores, sentences), LineStart(url, company, scores, sentences, i),
      ScoreLine(i, scores[i]))
  {
    var ps := Pieces(url, company, scores, sentences);
    ConcatPieceAt(ps, i + 1);
    PrefixOccurs(Concat(ps), LineStart(url, company, scores, sentences, i), ps[i + 1], ScoreLine(i, scores[i]));
  }

  /** The score lines come in label order and do not overlap. */
  lemma RenderLinesOrdered(url: string, company: string, scores: seq<string>, sentences: seq<string>, i: nat, j: nat)
    requires |scores| >= ReportSlots && IsWording(sentences) && i < j < ReportSlots
    ensures LineStart(url, company, scores, sentences, i) + |ScoreLine(i, scores[i])|
      <= LineStart(url, company, scores, sentences, j)
  {
    var ps := Pieces(url, company, scores, sentences);
    ConcatPiecesOrdered(ps, i + 1, j + 1);
    assert |ps[i + 1]| >= |ScoreLine(i, scores[i])|;
  }

  /** The overview naming the company follows the Overall score line directly. */
  lemma RenderNamesCompany(url: string, company: string, scores: seq<string>, sentences: seq<string>)
    requires |scores| >= ReportSlots && IsWording(sentences)
    ensures OccursAt(Render(url, company, scores, sentences),
      LineStart(url, company, scores, sentences, 0) + |ScoreLine(0, scores[0])|, OverviewLead + company)
  {
    var ps := Pieces(url, company, scores, sentences);
    var line := ScoreLine(0, scores[0]);
    var at := LineStart(url, company, scores, sentences, 0);
    ConcatPieceAt(ps, 1);
    FirstSlotNamesCompany(company, scores[0], sentences);
    PrefixOccurs(Concat(ps), at, ps[1], line + (OverviewLead + company));
    SuffixOccurs(Concat(ps), at, line, OverviewLead + company);
  }

  lemma FirstSlotNamesCompany(company: string, score: string, sentences: seq<string>)
    requires IsWording(sentences)
    ensures StartsWith(Slot(0, company, score, sentences), ScoreLine(0, score) + (OverviewLead + company))
  {
    var line := ScoreLine(0, score);
    var lead := OverviewLead + company;
    assert Slot(0, company, score, sentences) == (line + lead) + sentences[0];
    assert ((line + lead) + sentences[0])[..|line + lead|] == line + lead;
  }

  lemma PrefixOccurs(s: string, at: int, p: string, q: string)
    requires OccursAt(s, at, p) && StartsWith(p, q)
    ensures OccursAt(s, at, q)
  {
    assert s[at..at + |q|] == s[at..at + |p|][..|q|];
  }

  lemma SuffixOccurs(s: string, at: int, a: string, b: string)
    requires OccursAt(s, at, a + b)
    ensures OccursAt(s, at + |a|, b)
  {
    assert s[at + |a|..at + |a| + |b|] == s[at..at + |a + b|][|a|..];
  }
}
