/** The handful of Python `str` operations the scraper relies on, restricted to ASCII:
    character classes of `\w`, `\d` and `isspace`, `lower`, `in`, `strip`, `split`,
    `replace(pat, '')`, `title`, and `str` / `int` on non-negative integers. */
module Text {

  // ---------------------------------------------------------------------------
  // Character classes
  // ---------------------------------------------------------------------------

  predicate IsUpper(c: char) { 'A' <= c <= 'Z' }

  predicate IsLower(c: char) { 'a' <= c <= 'z' }

  /** The cased characters of `str.title`. */
  predicate IsLetter(c: char) { IsUpper(c) || IsLower(c) }

  /** `\d` */
  predicate IsDigit(c: char) { '0' <= c <= '9' }

  /** `\w`: letters, digits and the underscore. */
  predicate IsWordChar(c: char) { IsLetter(c) || IsDigit(c) || c == '_' }

  /** `str.isspace` on ASCII: space, `\t` `\n` `\v` `\f` `\r`, and the separators 0x1c-0x1f. */
  predicate IsSpace(c: char) {
    c == ' ' || 9 <= c as int <= 13 || 28 <= c as int <= 31
  }

  function ToLower(c: char): (d: char)
    ensures !IsUpper(d)
    ensures IsLetter(c) <==> IsLetter(d)
  {
    if IsUpper(c) then (c as int + 32) as char else c
  }

  function ToUpper(c: char): (d: char)
    ensures !IsLower(d)
    ensures IsLetter(c) <==> IsLetter(d)
  {
    if IsLower(c) then (c as int - 32) as char else c
  }

  /** `str.lower` */
  function Lower(s: string): (r: string)
    ensures |r| == |s|
    ensures forall i :: 0 <= i < |s| ==> r[i] == ToLower(s[i])
  {
    seq(|s|, i requires 0 <= i < |s| => ToLower(s[i]))
  }

  /** Lower-casing a text without upper-case letters changes nothing. */
  lemma LowerOfLowerCase(s: string)
    requires forall i :: 0 <= i < |s| ==> !IsUpper(s[i])
    ensures Lower(s) == s
  {
    assert forall i :: 0 <= i < |s| ==> Lower(s)[i] == s[i];
  }

  // ---------------------------------------------------------------------------
  // Substrings
  // ---------------------------------------------------------------------------

  predicate StartsWith(s: string, p: string) {
    |p| <= |s| && s[..|p|] == p
  }

  /** `p` occurs in `s` starting at position `i`. */
  predicate OccursAt(s: string, i: int, p: string) {
    0 <= i && i + |p| <= |s| && s[i..i + |p|] == p
  }

  /** Python's `p in s`, computed by trying every start position from the left. */
  predicate Contains(s: string, p: string)
    decreases |s|
  {
    StartsWith(s, p) || (|s| > 0 && Contains(s[1..], p))
  }

  /** `Contains` finds `p` exactly when some position of `s` holds it. */
  lemma {:induction false} ContainsIff(s: string, p: string)
    ensures Contains(s, p) <==> exists i :: OccursAt(s, i, p)
    decreases |s|
  {
    if |p| <= |s| && s[..|p|] == p {
      assert OccursAt(s, 0, p);
    }
    if |s| > 0 {
      ContainsIff(s[1..], p);
      forall i | 0 < i
        ensures OccursAt(s, i, p) <==> OccursAt(s[1..], i - 1, p)
      {
        if i + |p| <= |s| {
          assert s[1..][i - 1..i - 1 + |p|] == s[i..i + |p|];
        }
      }
      if Contains(s[1..], p) {
        var i :| OccursAt(s[1..], i, p);
        assert OccursAt(s, i + 1, p);
      }
    }
  }

  /** A prefix of a prefix is a prefix. */
  lemma StartsWithTrans(s: string, p: string, q: string)
    ensures StartsWith(s, p) && StartsWith(p, q) ==> StartsWith(s, q)
  {
    if StartsWith(s, p) && StartsWith(p, q) {
      assert s[..|q|] == s[..|p|][..|q|];
    }
  }

  // ---------------------------------------------------------------------------
  // strip
  // ---------------------------------------------------------------------------

  predicate AllSpace(s: string) {
    forall i :: 0 <= i < |s| ==> IsSpace(s[i])
  }

  /** How many whitespace characters `s` starts with. */
  function LeadingSpace(s: string): (n: nat)
    ensures n <= |s|
    ensures forall i :: 0 <= i < n ==> IsSpace(s[i])
    ensures n < |s| ==> !IsSpace(s[n])
    decreases |s|
  {
    if |s| > 0 && IsSpace(s[0]) then 1 + LeadingSpace(s[1..]) else 0
  }

  /** How many whitespace characters `s` ends with. */
  function TrailingSpace(s: string): (n: nat)
    ensures n <= |s|
    ensures forall i :: |s| - n <= i < |s| ==> IsSpace(s[i])
    ensures n < |s| ==> !IsSpace(s[|s| - n - 1])
    decreases |s|
  {
    if |s| > 0 && IsSpace(s[|s| - 1]) then
      var n := TrailingSpace(s[..|s| - 1]);
      assert forall i :: |s| - 1 - n <= i < |s| - 1 ==> s[..|s| - 1][i] == s[i];
      1 + n
    else 0
  }

  /** `str.strip()`: leading whitespace is dropped, then trailing whitespace. */
  function Strip(s: string): string {
    var t := s[LeadingSpace(s)..];
    t[..|t| - TrailingSpace(t)]
  }

  /** `strip` keeps a contiguous slice `s[a..a + |r|]` of its input, drops only
      whitespace around it, and leaves no whitespace at either end. */
  lemma StripIsTrimmedSlice(s: string) returns (a: nat)
    ensures a + |Strip(s)| <= |s| && Strip(s) == s[a..a + |Strip(s)|]
    ensures AllSpace(s[..a]) && AllSpace(s[a + |Strip(s)|..])
    ensures Strip(s) == [] || (!IsSpace(Strip(s)[0]) && !IsSpace(Strip(s)[|Strip(s)| - 1]))
  {
    a := LeadingSpace(s);
    var t := s[a..];
    var b := TrailingSpace(t);
    var r := t[..|t| - b];
    assert r == Strip(s);
    assert r == s[a..a + |r|];
    assert forall i :: 0 <= i < a ==> s[..a][i] == s[i];
    assert s[a + |r|..] == t[|r|..];
    if r != [] {
      assert r[0] == s[a];
      assert r[|r| - 1] == t[|t| - b - 1];
    }
  }

  /** A string strips to nothing exactly when it is all whitespace: the blank-entry test. */
  lemma StripEmptyIff(s: string)
    ensures Strip(s) == [] <==> AllSpace(s)
  {
    var a := LeadingSpace(s);
    var t := s[a..];
    if a < |s| {
      assert t[0] == s[a];
      assert !IsSpace(t[0]);
    }
  }

  /** A string without whitespace at either end strips to itself. */
  lemma StripUnpadded(s: string)
    requires s == [] || (!IsSpace(s[0]) && !IsSpace(s[|s| - 1]))
    ensures Strip(s) == s
  {
    assert LeadingSpace(s) == 0;
    assert s[0..] == s;
    assert TrailingSpace(s) == 0;
  }

  /** Stripping twice changes nothing. */
  lemma StripIdempotent(s: string)
    ensures Strip(Strip(s)) == Strip(s)
  {
    var a := StripIsTrimmedSlice(s);
    StripUnpadded(Strip(s));
  }

  // ---------------------------------------------------------------------------
  // split, join and replace(pat, '')
  // ---------------------------------------------------------------------------

  /** `s.split(sep)` for a non-empty separator: the pieces between the occurrences of
      `sep` found scanning left to right without overlap. */
  function Split(s: string, sep: string): (pieces: seq<string>)
    requires |sep| > 0
    ensures |pieces| >= 1
    decreases |s|
  {
    if StartsWith(s, sep) then [""] + Split(s[|sep|..], sep)
    else if |s| == 0 then [""]
    else
      var rest := Split(s[1..], sep);
      [[s[0]] + rest[0]] + rest[1..]
  }

  /** `sep.join(pieces)` */
  function Join(pieces: seq<string>, sep: string): string
    decreases |pieces|
  {
    if |pieces| == 0 then ""
    else if |pieces| == 1 then pieces[0]
    else pieces[0] + sep + Join(pieces[1..], sep)
  }

  /** `''.join(pieces)` */
  function Concat(pieces: seq<string>): string
    decreases |pieces|
  {
    if |pieces| == 0 then "" else Concat(pieces[..|pieces| - 1]) + pieces[|pieces| - 1]
  }

  /** `s.replace(pat, '')`: every occurrence of `pat` found scanning left to right
      without overlap is deleted. */
  function RemoveAll(s: string, pat: string): (r: string)
    requires |pat| > 0
    ensures |r| <= |s|
    decreases |s|
  {
    if StartsWith(s, pat) then RemoveAll(s[|pat|..], pat)
    else if |s| == 0 then ""
    else [s[0]] + RemoveAll(s[1..], pat)
  }

  /** The split of a string that does not start with the separator: its first character
      is glued to the first piece of the split of the rest. */
  lemma SplitStep(s: string, sep: string)
    requires |sep| > 0 && |s| > 0 && !StartsWith(s, sep)
    ensures Split(s, sep) == [[s[0]] + Split(s[1..], sep)[0]] + Split(s[1..], sep)[1..]
  {
  }

  lemma JoinCons(x: string, rest: seq<string>, sep: string)
    requires |rest| >= 1
    ensures Join([x] + rest, sep) == x + sep + Join(rest, sep)
  {
    assert ([x] + rest)[1..] == rest;
  }

  /** Gluing a character to the first piece glues it to the front of the join. */
  lemma JoinGlueHead(c: char, rest: seq<string>, sep: string)
    requires |rest| >= 1
    ensures Join([[c] + rest[0]] + rest[1..], sep) == [c] + Join(rest, sep)
  {
    var ps := [[c] + rest[0]] + rest[1..];
    if |rest| > 1 {
      assert ps[1..] == rest[1..];
      assert Join(ps, sep) == ([c] + rest[0]) + sep + Join(rest[1..], sep);
      assert Join(rest, sep) == rest[0] + sep + Join(rest[1..], sep);
    }
  }

  /** Joining the pieces of a split with the same separator gives back the string. */
  lemma {:induction false} JoinSplit(s: string, sep: string)
    requires |sep| > 0
    ensures Join(Split(s, sep), sep) == s
    decreases |s|
  {
    if StartsWith(s, sep) {
      var tail := s[|sep|..];
      JoinSplit(tail, sep);
      JoinCons("", Split(tail, sep), sep);
      assert s == "" + sep + tail;
    } else if |s| > 0 {
      var rest := Split(s[1..], sep);
      JoinSplit(s[1..], sep);
      SplitStep(s, sep);
      JoinGlueHead(s[0], rest, sep);
      assert s == [s[0]] + s[1..];
    }
  }

  /** No piece of a split contains the separator. */
  lemma {:induction false} SplitPiecesAvoidSeparator(s: string, sep: string)
    requires |sep| > 0
    ensures forall k :: 0 <= k < |Split(s, sep)| ==> !Contains(Split(s, sep)[k], sep)
    decreases |s|
  {
    var ps := Split(s, sep);
    assert !Contains("", sep);
    if StartsWith(s, sep) {
      SplitPiecesAvoidSeparator(s[|sep|..], sep);
      forall k | 0 < k < |ps| ensures !Contains(ps[k], sep) {
        assert ps[k] == Split(s[|sep|..], sep)[k - 1];
      }
    } else if |s| > 0 {
      var rest := Split(s[1..], sep);
      SplitPiecesAvoidSeparator(s[1..], sep);
      JoinSplit(s[1..], sep);
      PrefixOfJoin(rest, sep);
      var p0 := [s[0]] + rest[0];
      assert StartsWith(s, p0) by {
        assert s == [s[0]] + s[1..];
        assert s[1..][..|rest[0]|] == rest[0];
      }
      StartsWithTrans(s, p0, sep);
      assert p0[1..] == rest[0];
      assert !Contains(p0, sep);
      forall k | 0 < k < |ps| ensures !Contains(ps[k], sep) {
        assert ps[k] == rest[k];
      }
    }
  }

  /** The first piece of a split is a prefix of the joined string. */
  lemma PrefixOfJoin(pieces: seq<string>, sep: string)
    requires |pieces| >= 1
    ensures |pieces[0]| <= |Join(pieces, sep)|
    ensures Join(pieces, sep)[..|pieces[0]|] == pieces[0]
  {
    if |pieces| > 1 {
      assert Join(pieces, sep) == pieces[0] + (sep + Join(pieces[1..], sep));
    }
  }

  lemma ConcatSingle(x: string)
    ensures Concat([x]) == x
  {
    assert [x][..0] == [];
  }

  lemma ConcatCons(x: string, rest: seq<string>)
    ensures Concat([x] + rest) == x + Concat(rest)
  {
    ConcatAppend([x], rest);
    ConcatSingle(x);
  }

  /** Deleting every occurrence is the same as concatenating the pieces of the split,
      the identity `s.replace(p, '') == ''.join(s.split(p))`. */
  lemma {:induction false} RemoveAllIsConcatOfSplit(s: string, pat: string)
    requires |pat| > 0
    ensures RemoveAll(s, pat) == Concat(Split(s, pat))
    decreases |s|
  {
    if StartsWith(s, pat) {
      var tail := s[|pat|..];
      RemoveAllIsConcatOfSplit(tail, pat);
      ConcatCons("", Split(tail, pat));
      assert Split(s, pat) == [""] + Split(tail, pat);
      assert RemoveAll(s, pat) == RemoveAll(tail, pat);
      assert "" + Concat(Split(tail, pat)) == Concat(Split(tail, pat));
    } else if |s| == 0 {
      ConcatSingle("");
    } else {
      var rest := Split(s[1..], pat);
      RemoveAllIsConcatOfSplit(s[1..], pat);
      SplitStep(s, pat);
      ConcatCons([s[0]] + rest[0], rest[1..]);
      ConcatCons(rest[0], rest[1..]);
      assert [rest[0]] + rest[1..] == rest;
      var tail := Concat(rest[1..]);
      assert RemoveAll(s, pat) == [s[0]] + RemoveAll(s[1..], pat);
      assert RemoveAll(s[1..], pat) == rest[0] + tail;
      assert [s[0]] + (rest[0] + tail) == ([s[0]] + rest[0]) + tail;
    }
  }

  /** Concatenation distributes over appending lists of pieces. */
  lemma {:induction false} ConcatAppend(a: seq<string>, b: seq<string>)
    ensures Concat(a + b) == Concat(a) + Concat(b)
    decreases |b|
  {
    if |b| == 0 {
      assert a + b == a;
    } else {
      var last := b[|b| - 1];
      var b' := b[..|b| - 1];
      ConcatAppend(a, b');
      assert (a + b)[..|a + b| - 1] == a + b';
      assert (a + b)[|a + b| - 1] == last;
      assert Concat(a + b) == Concat(a + b') + last;
      assert Concat(b) == Concat(b') + last;
      assert Concat(a + b) == Concat(a) + (Concat(b') + last);
    }
  }

  /** Where piece `k` lands in the concatenation: right after the pieces before it. */
  lemma ConcatPieceAt(pieces: seq<string>, k: nat)
    requires k < |pieces|
    ensures OccursAt(Concat(pieces), |Concat(pieces[..k])|, pieces[k])
  {
    assert pieces == pieces[..k] + [pieces[k]] + pieces[k + 1..];
    ConcatAppend(pieces[..k] + [pieces[k]], pieces[k + 1..]);
    ConcatAppend(pieces[..k], [pieces[k]]);
    assert Concat([pieces[k]]) == pieces[k] by { assert [pieces[k]][..0] == []; }
  }

  /** Pieces land in their list order: a later piece starts after an earlier one ends. */
  lemma ConcatPiecesOrdered(pieces: seq<string>, j: nat, k: nat)
    requires j < k <= |pieces|
    ensures |Concat(pieces[..j])| + |pieces[j]| <= |Concat(pieces[..k])|
  {
    assert pieces[..k] == pieces[..j] + [pieces[j]] + pieces[j + 1..k];
    ConcatAppend(pieces[..j] + [pieces[j]], pieces[j + 1..k]);
    ConcatAppend(pieces[..j], [pieces[j]]);
    assert Concat([pieces[j]]) == pieces[j] by { assert [pieces[j]][..0] == []; }
  }

  // ---------------------------------------------------------------------------
  // title
  // ---------------------------------------------------------------------------

  /** What `str.title` does to character `i` of `s`: a letter is upper-cased when it starts
      a run of letters (the character before it is not a letter) and lower-cased otherwise;
      every other character is kept. */
  function TitleChar(s: string, i: nat, prevCased: bool): char
    requires i < |s|
  {
    var afterLetter := if i == 0 then prevCased else IsLetter(s[i - 1]);
    if !IsLetter(s[i]) then s[i]
    else if afterLetter then ToLower(s[i])
    else ToUpper(s[i])
  }

  /** The scan of CPython's `title`, carrying "the previous character was cased". */
  function TitleFrom(s: string, prevCased: bool): (r: string)
    ensures |r| == |s|
    ensures forall i :: 0 <= i < |s| ==> r[i] == TitleChar(s, i, prevCased)
    decreases |s|
  {
    if |s| == 0 then ""
    else
      var c := if !IsLetter(s[0]) then s[0] else if prevCased then ToLower(s[0]) else ToUpper(s[0]);
      var rest := TitleFrom(s[1..], IsLetter(s[0]));
      assert forall i :: 1 <= i < |s| ==> TitleChar(s[1..], i - 1, IsLetter(s[0])) == TitleChar(s, i, prevCased);
      [c] + rest
  }

  /** `str.title` */
  function Title(s: string): string {
    TitleFrom(s, false)
  }

  /** Title-casing is idempotent. */
  lemma TitleIdempotent(s: string)
    ensures Title(Title(s)) == Title(s)
  {
    var t := Title(s);
    forall i | 0 <= i < |s|
      ensures Title(t)[i] == t[i]
    {
      assert IsLetter(t[i]) == IsLetter(s[i]);
      if i > 0 {
        assert IsLetter(t[i - 1]) == IsLetter(s[i - 1]);
      }
    }
  }

  // ---------------------------------------------------------------------------
  // Decimal numerals
  // ---------------------------------------------------------------------------

  predicate AllDigits(s: string) {
    forall i :: 0 <= i < |s| ==> IsDigit(s[i])
  }

  /** The spelling `str(n)` produces: digits only, and no leading zero unless it is "0". */
  predicate IsCanonicalDecimal(s: string) {
    |s| > 0 && AllDigits(s) && (|s| == 1 || s[0] != '0')
  }

  function DigitValue(c: char): int { c as int - '0' as int }

  function DigitChar(d: nat): char
    requires d < 10
  {
    ('0' as int + d) as char
  }

  /** `int(s)` for a string of digits. */
  function DecimalValue(s: string): (v: nat)
    requires AllDigits(s)
    decreases |s|
  {
    if |s| == 0 then 0
    else DecimalValue(s[..|s| - 1]) * 10 + DigitValue(s[|s| - 1])
  }

  /** `str(n)` for a non-negative integer. */
  function NatToDecimal(n: nat): (s: string)
    ensures IsCanonicalDecimal(s)
    ensures DecimalValue(s) == n
    decreases n
  {
    if n < 10 then [DigitChar(n)]
    else
      var p := NatToDecimal(n / 10);
      var s := p + [DigitChar(n % 10)];
      assert s[..|s| - 1] == p;
      s
  }

  function Pow10(k: nat): nat {
    if k == 0 then 1 else 10 * Pow10(k - 1)
  }

  /** A numeral without a leading zero has a value of at least 10^(length-1). */
  lemma {:induction false} CanonicalLowerBound(s: string)
    requires AllDigits(s) && |s| > 0 && s[0] != '0'
    ensures DecimalValue(s) >= Pow10(|s| - 1)
    decreases |s|
  {
    if |s| > 1 {
      var p := s[..|s| - 1];
      assert p[0] == s[0];
      CanonicalLowerBound(p);
    }
  }

  /** A numeral of `k` digits has a value below 10^k. */
  lemma {:induction false} DecimalUpperBound(s: string)
    requires AllDigits(s)
    ensures DecimalValue(s) < Pow10(|s|)
    decreases |s|
  {
    if |s| > 0 {
      DecimalUpperBound(s[..|s| - 1]);
    }
  }
}
