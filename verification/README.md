# RateMySite scraper: a Dafny model of its result pipeline

`scraper.py` defines `WebsiteScraper`, which obtains a UI/UX analysis report for a target
website. It first loads the RateMySite homepage. It then submits the target by a form POST,
then by a GET with the target in the query string. When neither reply yields a report, it
synthesises one from a reachability probe of the target. Every report is filled from one
fixed template with eight scores. A batch driver runs this for every non-blank entry of a
list of URLs.

This project models that pipeline as pure functions and proves properties of it:

- `Tokens`: the score pattern `\b([6-9]\d|100)\b` as `re.findall` applies it. It is modelled
  twice. The first definition follows the regex engine: word-boundary tests, the two
  alternatives tried in order with backtracking, and a non-overlapping scan from the left.
  The second is a reference reading: the maximal runs of word characters that spell 60 to
  100. The two are proved equal.
- `Scores`: the eight score strings a report is filled with. They are either the first eight
  numbers found in a reply (or the defaults when none are found), or the numbers synthesised
  from the probe's status code and the URL's `https` prefix.
- `Urls`: the network location of `urllib.parse.urlparse`, including the `ValueError` for
  unbalanced IPv6 brackets. Also the company name: `www.` removed, cut at the first `.`,
  title-cased.
- `Report`: `_format_analysis`, the fixed report with a header, a company overview and eight
  labelled score lines. It fails with an `IndexError` when fewer than eight scores are given.
- `Scraper`: `scrape_single_url` with its fallback chain and result record, and
  `scrape_multiple_urls`.
- `Text` and `Wrappers`: the Python string operations these rely on (`lower`, `in`, `strip`,
  `split`, `replace(p, '')`, `title`, `str` of a number), and `Option` / `Result`.

The network is a parameter: a function from the request made (session GET, session POST,
or the direct GET of the probe) to what it gives back (a reply with status and text, or the
message of the exception raised). For a batch, the network may answer differently at each
position of the input list.

One consequence of the code, proved as `Scraper.ShortScoreListFallsThrough`: a reply that
mentions a keyword but contains only one to seven numbers between 60 and 100 never becomes
the report. `numbers[:8]` keeps the short list, `_format_analysis` then indexes past its
end, and the `except` around the attempt swallows the `IndexError`. The scraper moves on to
the next attempt.

An error result carries `str(e)` of the exception that ended the attempt (scraper.py line
91). That text is empty for an exception raised without a message, so the model promises
only that an error result carries the message of what was raised, not that it is non-empty.

## Model

| member | source | states |
|---|---|---|
| Tokens.ScoreMatchesAreScoreWords | scraper.py:99 | the matches of the score pattern are exactly the maximal word-character runs that are score tokens, in order of occurrence |
| Tokens.ScoreTokenIff | scraper.py:99 | a run is a score token exactly when it is the canonical decimal spelling of a number from 60 to 100 |
| Tokens.NoScoreInsideLongerWords | scraper.py:99 | "850", "a85" and "085" contain no score |
| Tokens.ScoresBetweenPunctuation | scraper.py:99 | "85/100" yields "85" then "100": punctuation is a word boundary and the scan resumes after a match |
| Scores.ScoresFromBody | scraper.py:99-100 | one to eight score tokens; the defaults when the body has none; otherwise the first min(8, n) found, in order; exactly eight when none or at least eight are found |
| Scores.DefaultValues | scraper.py:100 | the default scores are score tokens worth 75 to 85 |
| Scores.SyntheticValues | scraper.py:109-125 | eight values, each from 65 to 98; Technical Implementation is the lowest, Content Clarity the highest, and Overall equals Business Impact |
| Scores.GeneratedScores | scraper.py:107-130 | eight digit strings, each a score token worth 65 to 98; the defaults when the probe raised, else the decimal spellings of the synthetic values |
| Scores.ReachableAddsFifteen | scraper.py:109-113 | a status below 400 scores exactly 15 more in every slot than one of 400 or above |
| Scores.HttpsAddsFive | scraper.py:110-114 | a URL starting with "https" scores exactly 5 more in every slot |
| Scores.SpacedScoresReadBack | scraper.py:99-100 | eight score tokens written out with any separator free of word characters are read back unchanged by the extractor |
| Scores.GeneratedScoresReadBack | scraper.py:116-125 | the extractor reads the synthesised scores back unchanged from any text that separates them with non-word characters |
| Urls.Netloc | scraper.py:137 | empty when no `//` follows the scheme; otherwise the text after `//` up to the first `/`, `?` or `#` or the end; it fails, with "Invalid IPv6 URL", exactly when that text has a `[` without a `]` or the reverse |
| Urls.NetlocOfComposedUrl | scraper.py:137 | scheme + "://" + host + path parses back to the host when the host's brackets are balanced |
| Urls.NetlocOfUnbalancedHost | scraper.py:137 | scheme + "://" + host + path raises the IPv6 error when the host has a `[` without a `]` or the reverse |
| Urls.CompanyName | scraper.py:137-138 | the name is exactly as long as the netloc without "www." up to its first `.`, matches that text letter for letter up to case, has no `.`, and is its own title-casing |
| Urls.CompanyOfPlainHost | scraper.py:137-138 | for a host without "www.", the name is its first label title-cased |
| Urls.CompanyOfWwwHost | scraper.py:137-138 | a leading "www." does not change the name |
| Urls.CompanyOfExample | scraper.py:137-138 | "https://Example.com/" gives the name "Example" |
| Urls.CompanyOfEmptyNetloc | scraper.py:137-138 | an empty netloc gives an empty name |
| Text.RemoveAllIsConcatOfSplit | scraper.py:137 | `replace("www.", "")` equals concatenating the pieces of `split("www.")` |
| Text.JoinSplit | scraper.py:138 | joining the pieces of a split with its separator gives the string back |
| Text.TitleIdempotent | scraper.py:138 | title-casing twice changes nothing |
| Report.FormatAnalysis | scraper.py:135-171 | succeeds exactly when the netloc parses and there are at least eight scores; otherwise fails with the parse error or the index error; a report starts with the header naming the URL |
| Report.Render | scraper.py:140-171 | the report starts with "UI/UX Analysis Report for " + url and a blank line |
| Report.FormattedScoreLines | scraper.py:137-171 | when the netloc parses and there are at least eight scores, the report is made, and in it score `i` stands after label `i` and " Score: " at the start of line `i`, and the eight lines come in label order without overlapping |
| Report.RenderShowsScore | scraper.py:142-168 | score `i` stands right after label `i` and " Score: " |
| Report.RenderLinesOrdered | scraper.py:142-168 | the eight score lines appear in label order without overlapping |
| Report.RenderNamesCompany | scraper.py:142-144 | the overview naming the company follows the Overall line |
| Scraper.AnalysisFromResponse | scraper.py:96-102 | a report from a body exists exactly when the netloc parses and the body has no scores or at least eight |
| Scraper.ReportShowsBodyScores | scraper.py:96-102 | when the netloc parses and eight scores are taken from the body (it has no score or at least eight), a report is made from the body, and its line `i` shows the `i`-th score found in the body, or the `i`-th default when the body has none |
| Scraper.TryResponse | scraper.py:51-82 | an attempt yields a report exactly when its request got a reply that mentions a keyword and a report can be made from that reply; a report starts with the header naming the target |
| Scraper.RealisticAnalysis | scraper.py:104-133 | synthesis fails only on the URL parse, and otherwise fills the template with the generated scores |
| Scraper.AfterPost | scraper.py:70-87 | after the POST attempt, the result is an error exactly when the netloc does not parse, with the parse error as its message |
| Scraper.ScrapeSingle | scraper.py:22-94 | the result names the target and is well formed; it is an error exactly when the homepage request raised or the netloc does not parse, carrying that message; a success starts with the report header |
| Scraper.PostAnswerIsUsed | scraper.py:51-62 | a POST reply that mentions a keyword and yields a report becomes the content |
| Scraper.ShortScoreListFallsThrough | scraper.py:51-68 | a POST reply with one to seven scores yields nothing, and the chain continues with the GET attempt |
| Scraper.QueryAnswerIsUsed | scraper.py:71-79 | when the POST attempt gives nothing, a qualifying GET reply becomes the content |
| Scraper.SilentServiceSynthesises | scraper.py:84-87 | when both attempts give nothing, the content is the report filled with the probe's generated scores |
| Scraper.ReportKeywordOnlyForPost | scraper.py:59-76 | every body the GET attempt accepts, the POST attempt accepts too; a body that only says "report" is accepted by the POST attempt and rejected by the GET attempt |
| Scraper.NonBlankPositions | scraper.py:176-177 | the positions of the non-blank entries, in range and strictly increasing |
| Scraper.NonBlankPositionsComplete | scraper.py:176-177 | no non-blank entry is missed |
| Scraper.MapNonBlankFollowsPositions | scraper.py:175-182 | the batch has one result per non-blank entry, in input order, from the stripped entry and its position |
| Scraper.ScrapeMultiple | scraper.py:173-182 | one result per non-blank entry, in input order, each `scrape_single_url` of the stripped entry; every result is well formed and names a non-empty, stripped URL |
| Scraper.BatchSkipsBlanks | scraper.py:176-180 | for ["a.test", "", " \t", "b.test"] only entries 0 and 3 are processed |
| Text.StripEmptyIff | scraper.py:177 | `url.strip()` is empty exactly when the entry is all whitespace |
| Text.StripIsTrimmedSlice | scraper.py:179 | `strip` keeps a contiguous slice and removes only whitespace at both ends |
| Text.StripIdempotent | scraper.py:179 | stripping a stripped URL changes nothing |

## Left out

- Network I/O: requests, sessions, headers, timeouts and response decoding are replaced by
  the network parameter. The session's cookies are not modelled. Within one target, the same
  request always gets the same answer.
- The homepage reply's status and text are not used; only whether the request raised.
- `print` logging and the `time.sleep(1)` pacing between targets have no functional content.
- The constructor's `headless` and `timeout` arguments and the session's User-Agent header
  do not affect the result.
- Characters are ASCII only. Python's `\w`, `\d`, `isspace`, `lower` and `title` also act on
  non-ASCII characters. The model's `\d` and `\w` are narrower than Python's, which cuts both
  ways: it finds no scores in non-ASCII digits, and a non-ASCII letter next to digits is a
  word boundary in the model but not in Python, so the model finds "85" in "é85" where
  Python finds nothing.
- URL parsing follows `urlsplit` for the netloc only, in the releases that carry the fix for
  CPython issue gh-99418, where a scheme must start with an ASCII letter. It does not model
  the removal of leading control characters and spaces, the removal of tab and newline
  characters, or the validation of bracketed hosts added in Python 3.11.
- Exceptions other than a raised request and the two formatting errors are not modelled,
  for example a failure to decode a response body.
- Scraper.ScrapeSingle: does not claim the error message is non-empty, because the code
  stores `str(e)`, which can be empty.
