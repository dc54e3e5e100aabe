/** The part of `urllib.parse.urlparse` the report needs, its network location, and the
    company name derived from it (scraper.py lines 137-138). */
module Urls {
  import opened Wrappers
  import opened Text

  /** The message of the `ValueError` urlsplit raises for unbalanced IPv6 brackets. */
  const InvalidIPv6Message: string := "Invalid IPv6 URL"

  /** Index of the first `c` in `s`, or `|s|` when there is none. */
  function IndexOf(s: string, c: char): (i: nat)
    ensures i <= |s|
    ensures forall j :: 0 <= j < i ==> s[j] != c
    ensures i < |s| ==> s[i] == c
    decreases |s|
  {
    if |s| == 0 then 0
    else if s[0] == c then 0
    else 1 + IndexOf(s[1..], c)
  }

  predicate IsSchemeChar(c: char) {
    IsLetter(c) || IsDigit(c) || c == '+' || c == '-' || c == '.'
  }

  /** A prefix urlsplit accepts as a scheme: a letter followed by letters, digits, `+`, `-`, `.`. */
  predicate IsScheme(p: string) {
    |p| > 0 && IsLetter(p[0]) && forall i :: 0 <= i < |p| ==> IsSchemeChar(p[i])
  }

  /** The URL with its scheme and colon removed, when the text before the first colon is a scheme. */
  function AfterScheme(url: string): (rest: string)
    ensures |rest| <= |url| && rest == url[|url| - |rest|..]
  {
    var i := IndexOf(url, ':');
    if i < |url| && IsScheme(url[..i]) then url[i + 1..] else url
  }

  predicate IsNetlocDelimiter(c: char) {
    c == '/' || c == '?' || c == '#'
  }

  /** Index of the first `/`, `?` or `#` in `s`, or `|s|`. */
  function DelimiterIndex(s: string): (i: nat)
    ensures i <= |s|
    ensures forall j :: 0 <= j < i ==> !IsNetlocDelimiter(s[j])
    ensures i < |s| ==> IsNetlocDelimiter(s[i])
    decreases |s|
  {
    if |s| == 0 || IsNetlocDelimiter(s[0]) then 0
    else 1 + DelimiterIndex(s[1..])
  }

  predicate HasUnbalancedBrackets(n: string) {
    ('[' in n && ']' !in n) || (']' in n && '[' !in n)
  }

  /** The text after a leading `//` up to the first `/`, `?` or `#` (or to the end). */
  function HostSpan(rest: string): (n: string)
    requires StartsWith(rest, "//")
    ensures forall j :: 0 <= j < |n| ==> !IsNetlocDelimiter(n[j])
    ensures StartsWith(rest, "//" + n)
    ensures |rest| == 2 + |n| || IsNetlocDelimiter(rest[2 + |n|])
  {
    var after := rest[2..];
    var n := after[..DelimiterIndex(after)];
    assert forall j :: 0 <= j < |n| ==> n[j] == after[j];
    assert rest[..2 + |n|] == rest[..2] + after[..|n|];
    assert |n| < |after| ==> rest[2 + |n|] == after[|n|];
    n
  }

  /** `urlparse(url).netloc`: after the scheme, a `//` opens the network location, which
      runs to the first `/`, `?` or `#`; without `//` it is empty. A `[` without a `]`, or
      the reverse, raises. */
  function Netloc(url: string): (r: Result<string>)
    ensures r.Err? ==> r.error == InvalidIPv6Message
    ensures r.Ok? ==> forall j :: 0 <= j < |r.value| ==> !IsNetlocDelimiter(r.value[j])
    ensures r.Ok? ==> !HasUnbalancedBrackets(r.value)
    ensures r.Ok? && r.value != [] ==> Contains(url, "//" + r.value)
    ensures !StartsWith(AfterScheme(url), "//") ==> r == Ok("")
    ensures r.Ok? && StartsWith(AfterScheme(url), "//") ==>
      var rest := AfterScheme(url);
      StartsWith(rest, "//" + r.value) && (|rest| == 2 + |r.value| || IsNetlocDelimiter(rest[2 + |r.value|]))
    ensures r.Err? <==> StartsWith(AfterScheme(url), "//") && HasUnbalancedBrackets(HostSpan(AfterScheme(url)))
  {
    var rest := AfterScheme(url);
    if !StartsWith(rest, "//") then Ok("")
    else
      var n := HostSpan(rest);
      if HasUnbalancedBrackets(n) then Err(InvalidIPv6Message)
      else
        OccursInSuffix(url, |url| - |rest|, "//" + n);
        Ok(n)
  }

  /** The first `c` of `s` is at `k`. */
  lemma IndexOfIs(s: string, c: char, k: nat)
    requires k < |s| && s[k] == c
    requires forall j :: 0 <= j < k ==> s[j] != c
    ensures IndexOf(s, c) == k
  {
  }

  /** The first delimiter of `s` is at `k`, or there is none and `k` is `|s|`. */
  lemma DelimiterIndexIs(s: string, k: nat)
    requires k <= |s| && (k == |s| || IsNetlocDelimiter(s[k]))
    requires forall j :: 0 <= j < k ==> !IsNetlocDelimiter(s[j])
    ensures DelimiterIndex(s) == k
  {
  }

  /** A valid scheme and its colon are removed. */
  lemma AfterValidScheme(scheme: string, rest: string)
    requires IsScheme(scheme)
    ensures AfterScheme(scheme + ":" + rest) == rest
  {
    var url := scheme + ":" + rest;
    assert forall j :: 0 <= j < |scheme| ==> url[j] == scheme[j];
    IndexOfIs(url, ':', |scheme|);
    assert url[..|scheme|] == scheme;
    assert url[|scheme| + 1..] == rest;
  }

  /** A host free of delimiters ends where the path begins. */
  lemma HostBeforePath(host: string, path: string)
    requires forall j :: 0 <= j < |host| ==> !IsNetlocDelimiter(host[j])
    requires path == [] || IsNetlocDelimiter(path[0])
    ensures (host + path)[..DelimiterIndex(host + path)] == host
  {
    var after := host + path;
    assert forall j :: 0 <= j < |host| ==> after[j] == host[j];
    DelimiterIndexIs(after, |host|);
    assert after[..|host|] == host;
  }

  /** What a suffix of `s` starts with occurs in `s`. */
  lemma OccursInSuffix(s: string, k: nat, p: string)
    requires k <= |s| && StartsWith(s[k..], p)
    ensures Contains(s, p)
  {
    assert s[k..k + |p|] == s[k..][..|p|];
    assert OccursAt(s, k, p);
    ContainsIff(s, p);
  }

  /** Parsing back a URL assembled from a scheme, a host with balanced brackets and a path
      yields the host. */
  lemma NetlocOfComposedUrl(scheme: string, host: string, path: string)
    requires IsScheme(scheme)
    requires forall j :: 0 <= j < |host| ==> !IsNetlocDelimiter(host[j])
    requires !HasUnbalancedBrackets(host)
    requires path == [] || IsNetlocDelimiter(path[0])
    ensures Netloc(scheme + "://" + host + path) == Ok(host)
  {
    var rest := "//" + (host + path);
    assert scheme + "://" + host + path == scheme + ":" + rest;
    AfterValidScheme(scheme, rest);
    assert StartsWith(rest, "//") && rest[2..] == host + path;
    HostBeforePath(host, path);
  }

  /** A URL assembled from a scheme, a host with a `[` but no `]` (or the reverse) and a path
      raises the IPv6 error, as `urlparse("http://[::1/x")` does. */
  lemma NetlocOfUnbalancedHost(scheme: string, host: string, path: string)
    requires IsScheme(scheme)
    requires forall j :: 0 <= j < |host| ==> !IsNetlocDelimiter(host[j])
    requires HasUnbalancedBrackets(host)
    requires path == [] || IsNetlocDelimiter(path[0])
    ensures Netloc(scheme + "://" + host + path) == Err(InvalidIPv6Message)
  {
    var rest := "//" + (host + path);
    assert scheme + "://" + host + path == scheme + ":" + rest;
    AfterValidScheme(scheme, rest);
    assert StartsWith(rest, "//") && rest[2..] == host + path;
    HostBeforePath(host, path);
  }

  /** The company name shown in the report: the netloc with every "www." removed, cut
      before its first ".", then title-cased. */
  function CompanyName(netloc: string): (company: string)
    ensures |company| <= |netloc|
    ensures '.' !in company
    ensures Title(company) == company
    ensures var d := RemoveAll(netloc, "www.");
      |company| <= |d| && forall i :: 0 <= i < |company| ==> ToLower(company[i]) == ToLower(d[i])
    ensures |company| == IndexOf(RemoveAll(netloc, "www."), '.')
  {
    var d := RemoveAll(netloc, "www.");
    var first := Split(d, ".")[0];
    FirstPieceBeforeSeparator(d, '.');
    TitleIdempotent(first);
    Title(first)
  }

  /** The first piece of `s.split(c)` is the text before the first `c`. */
  lemma {:induction false} FirstPieceBeforeSeparator(s: string, c: char)
    ensures Split(s, [c])[0] == s[..IndexOf(s, c)]
    decreases |s|
  {
    if |s| > 0 && s[0] != c {
      FirstPieceBeforeSeparator(s[1..], c);
      assert !StartsWith(s, [c]);
      assert s[..IndexOf(s, c)] == [s[0]] + s[1..][..IndexOf(s[1..], c)];
    } else if |s| > 0 {
      assert StartsWith(s, [c]);
    }
  }

  /** The netloc of "https://Example.com/". */
  lemma NetlocOfExample(url: string)
    requires url == "https://Example.com/"
    ensures Netloc(url) == Ok("Example.com")
  {
    var host := "Example.com";
    assert IsScheme("https");
    assert forall j :: 0 <= j < |host| ==> !IsNetlocDelimiter(host[j]) && host[j] != '[' && host[j] != ']';
    assert !HasUnbalancedBrackets(host);
    assert url == "https" + "://" + host + "/";
    NetlocOfComposedUrl("https", host, "/");
  }

  /** Without "www." in it, a host's company name is its first label, title-cased. */
  lemma CompanyOfPlainHost(first: string, rest: string)
    requires '.' !in first && !Contains(first + "." + rest, "www.")
    ensures CompanyName(first + "." + rest) == Title(first)
  {
    var netloc := first + "." + rest;
    RemoveNothing(netloc, "www.");
    assert forall j :: 0 <= j < |first| ==> netloc[j] == first[j];
    IndexOfIs(netloc, '.', |first|);
    FirstPieceBeforeSeparator(netloc, '.');
    assert netloc[..|first|] == first;
  }

  /** A leading "www." is dropped before the first label is taken. */
  lemma CompanyOfWwwHost(first: string, rest: string)
    requires '.' !in first && !Contains(first + "." + rest, "www.")
    ensures CompanyName("www." + first + "." + rest) == Title(first)
  {
    var host := first + "." + rest;
    var netloc := "www." + first + "." + rest;
    assert netloc == "www." + host;
    assert StartsWith(netloc, "www.") && netloc[4..] == host;
    assert RemoveAll(netloc, "www.") == RemoveAll(host, "www.");
    CompanyOfPlainHost(first, rest);
  }

  /** The company name for "https://Example.com/" is "Example". */
  lemma CompanyOfExample(url: string)
    requires url == "https://Example.com/"
    ensures Netloc(url).Ok? && CompanyName(Netloc(url).value) == "Example"
  {
    NetlocOfExample(url);
    var first, rest := ExampleHostLabels(Netloc(url).value);
    CompanyOfPlainHost(first, rest);
    ExampleTitle(first);
  }

  lemma ExampleHostLabels(host: string) returns (first: string, rest: string)
    requires host == "Example.com"
    ensures host == first + "." + rest && first == "Example"
    ensures '.' !in first && !Contains(first + "." + rest, "www.")
  {
    first, rest := "Example", "com";
    assert host == first + "." + rest;
    assert 'w' !in host;
    NoOccurrenceWithoutFirstChar(host, "www.");
  }

  lemma ExampleTitle(first: string)
    requires first == "Example"
    ensures Title(first) == "Example"
  {
  }

  /** An empty netloc gives an empty company name. */
  lemma CompanyOfEmptyNetloc()
    ensures CompanyName("") == ""
  {
    assert Split("", ".") == [""];
  }

  /** A pattern whose first character is absent does not occur. */
  lemma {:induction false} NoOccurrenceWithoutFirstChar(s: string, pat: string)
    requires |pat| > 0 && pat[0] !in s
    ensures !Contains(s, pat)
    decreases |s|
  {
    if |s| > 0 {
      assert s[0] != pat[0];
      NoOccurrenceWithoutFirstChar(s[1..], pat);
    }
  }

  /** Removing a pattern that does not occur changes nothing. */
  lemma {:induction false} RemoveNothing(s: string, pat: string)
    requires |pat| > 0
    requires !Contains(s, pat)
    ensures RemoveAll(s, pat) == s
    decreases |s|
  {
    if |s| > 0 {
      RemoveNothing(s[1..], pat);
      assert s == [s[0]] + s[1..];
    }
  }
}
