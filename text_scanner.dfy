/** The text scanner: `processString` and `BASE64_PATTERN`
    (HeadExtractor.java lines 77 and 326-331).

    The pattern is  \\?["']((?:B{4})*(?:B{2}==|B{3}=))\\?["']  where B is the
    alphabet [A-Za-z0-9+/].  `IsMatch` states when a stretch of text is a
    match of that pattern; `MatchAt` computes the match that Java's
    backtracking engine reports at a given start; `FindFrom` is the sequence of
    matches that repeated calls to `Matcher.find` report. */
module TextScanner {
  import opened Options

  /** A character of the token alphabet [A-Za-z0-9+/]. */
  predicate IsBase64Char(c: char) {
    ('A' <= c <= 'Z') || ('a' <= c <= 'z') || ('0' <= c <= '9') || c == '+' || c == '/'
  }

  predicate IsQuote(c: char) {
    c == '"' || c == '\''
  }

  predicate AllBase64(t: string) {
    forall i | 0 <= i < |t| :: IsBase64Char(t[i])
  }

  /** The language of the capture group (?:B{4})*(?:B{2}==|B{3}=): whole
      four-character blocks, the last of which ends in "==" or "=". */
  predicate IsToken(t: string) {
    |t| >= 4 && |t| % 4 == 0 && t[|t| - 1] == '=' &&
    ((AllBase64(t[..|t| - 2]) && t[|t| - 2] == '=') || AllBase64(t[..|t| - 1]))
  }

  /** s[i..j] is a delimiter  \\?["'] : a quote, or a backslash and a quote. */
  predicate IsDelimiter(s: string, i: nat, j: nat) {
    (j == i + 1 && j <= |s| && IsQuote(s[i])) ||
    (j == i + 2 && j <= |s| && s[i] == '\\' && IsQuote(s[i + 1]))
  }

  /** One match: s[start..tokenStart] and s[tokenEnd..end] are the delimiters,
      s[tokenStart..tokenEnd] is group 1. */
  datatype Match = Match(start: nat, tokenStart: nat, tokenEnd: nat, end: nat)

  /** m is a match of BASE64_PATTERN in s (the declarative reading of the regex). */
  predicate IsMatch(s: string, m: Match) {
    m.start < m.tokenStart <= m.tokenEnd < m.end <= |s| &&
    IsDelimiter(s, m.start, m.tokenStart) &&
    IsToken(s[m.tokenStart..m.tokenEnd]) &&
    IsDelimiter(s, m.tokenEnd, m.end)
  }

  /** The end of the run of alphabet characters that starts at i. */
  function RunEnd(s: string, i: nat): (r: nat)
    requires i <= |s|
    ensures i <= r <= |s|
    ensures AllBase64(s[i..r])
    ensures r < |s| ==> !IsBase64Char(s[r])
    decreases |s| - i
  {
    if i == |s| || !IsBase64Char(s[i]) then i else RunEnd(s, i + 1)
  }

  /** The delimiter \\?["'] at p, as the greedy optional backslash takes it:
      the index just after it. */
  function DelimiterAt(s: string, p: nat): (r: Option<nat>)
    ensures forall j: nat :: IsDelimiter(s, p, j) <==> r == Some(j)
  {
    if p < |s| && IsQuote(s[p]) then Some(p + 1)
    else if p + 1 < |s| && s[p] == '\\' && IsQuote(s[p + 1]) then Some(p + 2)
    else None
  }

  /** The end of group 1 when it starts at q.  The padding characters '=' are
      outside the alphabet, so (?:B{4})* must take the whole run of alphabet
      characters but its last 2 or 3, and the run length decides which
      alternative can follow. */
  function TokenEndAt(s: string, q: nat): (r: Option<nat>)
    requires q <= |s|
    ensures r.Some? ==> q + 4 <= r.value <= |s|
  {
    var e := RunEnd(s, q);
    if (e - q) % 4 == 2 && e + 2 <= |s| && s[e] == '=' && s[e + 1] == '=' then Some(e + 2)
    else if (e - q) % 4 == 3 && e + 1 <= |s| && s[e] == '=' then Some(e + 1)
    else None
  }

  /** The match Java reports when it tries the pattern at position p. */
  function MatchAt(s: string, p: nat): (r: Option<Match>)
    ensures r.Some? ==> r.value.start == p < r.value.tokenStart && r.value.tokenStart + 4 <= r.value.tokenEnd < r.value.end <= |s|
  {
    match DelimiterAt(s, p)
    case None => None
    case Some(a) =>
      match TokenEndAt(s, a)
      case None => None
      case Some(b) =>
        match DelimiterAt(s, b)
        case None => None
        case Some(e) => Some(Match(p, a, b, e))
  }

  /** The matches `Matcher.find` reports one after another when the search
      starts at `from`: the leftmost match, then the search resumes at its end. */
  function FindFrom(s: string, from: nat): (ms: seq<Match>)
    ensures forall k | 0 <= k < |ms| :: from <= ms[k].start && ms[k].end <= |s|
    ensures forall k | 0 < k < |ms| :: ms[k - 1].end <= ms[k].start
    ensures from <= |s| ==> 6 * |ms| <= |s| - from
    decreases |s| - from
  {
    if from >= |s| then []
    else
      match MatchAt(s, from)
      case Some(m) => [m] + FindFrom(s, m.end)
      case None => FindFrom(s, from + 1)
  }

  predicate InBounds(s: string, ms: seq<Match>) {
    forall k | 0 <= k < |ms| :: ms[k].tokenStart <= ms[k].tokenEnd <= |s|
  }

  /** Group 1 of each match. */
  function Tokens(s: string, ms: seq<Match>): (ts: seq<string>)
    requires InBounds(s, ms)
    ensures |ts| == |ms|
  {
    if ms == [] then [] else [s[ms[0].tokenStart..ms[0].tokenEnd]] + Tokens(s, ms[1..])
  }

  /** Everything `processString` hands to the consumer for the text s.
      Each match takes two delimiters and at least one four-character block,
      and matches do not overlap, so a text yields at most a sixth of its
      length in candidates. */
  function ScanText(s: string): (ts: seq<string>)
    ensures 6 * |ts| <= |s|
  {
    FindFromInBounds(s, 0);
    Tokens(s, FindFrom(s, 0))
  }

  // ---------------------------------------------------------------------
  // The computed match is the regex's match, and the only one at its start.

  lemma {:induction false} RunEndIs(s: string, i: nat, j: nat)
    requires i <= j <= |s|
    requires AllBase64(s[i..j])
    requires j == |s| || !IsBase64Char(s[j])
    ensures RunEnd(s, i) == j
    decreases j - i
  {
    if i < j {
      assert s[i..j][0] == s[i];
      assert s[i + 1..j] == s[i..j][1..];
      RunEndIs(s, i + 1, j);
    }
  }

  /** TokenEndAt finds exactly the ends b for which s[q..b] is in the
      language of group 1. */
  lemma TokenEndAtExact(s: string, q: nat, b: nat)
    requires q <= b <= |s|
    ensures TokenEndAt(s, q) == Some(b) <==> IsToken(s[q..b])
  {
    if TokenEndAt(s, q) == Some(b) {
      TokenEndAtSound(s, q, b);
    }
    if IsToken(s[q..b]) {
      TokenEndAtComplete(s, q, b);
    }
  }

  lemma TokenEndAtSound(s: string, q: nat, b: nat)
    requires q <= b <= |s|
    requires TokenEndAt(s, q) == Some(b)
    ensures IsToken(s[q..b])
  {
    var t := s[q..b];
    var e := RunEnd(s, q);
    if (e - q) % 4 == 2 && e + 2 <= |s| && s[e] == '=' && s[e + 1] == '=' {
      assert b == e + 2;
      assert t[..|t| - 2] == s[q..e];
    } else {
      assert b == e + 1 && s[e] == '=';
      assert t[..|t| - 1] == s[q..e];
    }
  }

  lemma TokenEndAtComplete(s: string, q: nat, b: nat)
    requires q <= b <= |s|
    requires IsToken(s[q..b])
    ensures TokenEndAt(s, q) == Some(b)
  {
    var t := s[q..b];
    if AllBase64(t[..|t| - 2]) && t[|t| - 2] == '=' {
      assert t[..|t| - 2] == s[q..b - 2];
      RunEndIs(s, q, b - 2);
    } else {
      assert t[..|t| - 1] == s[q..b - 1];
      RunEndIs(s, q, b - 1);
    }
  }

  /** The pattern matches at p in at most one way, and MatchAt reports it:
      a reported match is a match of the regex, and every match of the regex
      is the one reported at its start. */
  lemma MatchAtExact(s: string, m: Match)
    ensures MatchAt(s, m.start) == Some(m) <==> IsMatch(s, m)
  {
    if IsMatch(s, m) {
      TokenEndAtExact(s, m.tokenStart, m.tokenEnd);
    }
    if MatchAt(s, m.start) == Some(m) {
      TokenEndAtExact(s, m.tokenStart, m.tokenEnd);
    }
  }

  lemma {:induction false} FindFromInBounds(s: string, from: nat)
    ensures InBounds(s, FindFrom(s, from))
    decreases |s| - from
  {
    if from < |s| {
      match MatchAt(s, from)
      case Some(m) => FindFromInBounds(s, m.end);
      case None => FindFromInBounds(s, from + 1);
    }
  }

  // ---------------------------------------------------------------------
  // FindFrom is what repeated `find()` reports: leftmost first, then the
  // search resumes after the previous match's closing delimiter.

  /** No match of the pattern starts in [lo, hi). */
  ghost predicate NoMatchBetween(s: string, lo: nat, hi: nat) {
    forall m :: IsMatch(s, m) ==> !(lo <= m.start < hi)
  }

  /** ms lists, in order, the matches `find()` reports when the search starts
      at `from`: each is a match of the pattern, none starts before the point
      where its search began or overlaps the previous one, no match starts in
      the gap the search skipped, and after the last one there is none. */
  ghost predicate IsFindSequence(s: string, from: nat, ms: seq<Match>)
    decreases |ms|
  {
    if ms == [] then NoMatchBetween(s, from, |s| + 1)
    else
      from <= ms[0].start && IsMatch(s, ms[0]) &&
      NoMatchBetween(s, from, ms[0].start) &&
      IsFindSequence(s, ms[0].end, ms[1..])
  }

  /** Positions where the pattern cannot be tried successfully are passed over. */
  lemma {:induction false} FindFromSkips(s: string, from: nat, p: nat)
    requires from <= p <= |s|
    requires forall q | from <= q < p :: MatchAt(s, q) == None
    ensures FindFrom(s, from) == FindFrom(s, p)
    decreases p - from
  {
    if from < p {
      assert FindFrom(s, from) == FindFrom(s, from + 1);
      FindFromSkips(s, from + 1, p);
    }
  }

  lemma NoMatchAt(s: string, lo: nat, hi: nat, q: nat)
    requires lo <= q < hi
    requires NoMatchBetween(s, lo, hi)
    ensures MatchAt(s, q) == None
  {
    if MatchAt(s, q).Some? {
      MatchAtExact(s, MatchAt(s, q).value);
      assert false;
    }
  }

  /** A stretch where the pattern matches nowhere is passed over. */
  lemma NoMatchSkipped(s: string, from: nat, p: nat)
    requires from <= p <= |s|
    requires NoMatchBetween(s, from, p)
    ensures FindFrom(s, from) == FindFrom(s, p)
  {
    forall q | from <= q < p ensures MatchAt(s, q) == None {
      NoMatchAt(s, from, p, q);
    }
    FindFromSkips(s, from, p);
  }

  lemma {:induction false} FindFromIsFindSequence(s: string, from: nat)
    ensures IsFindSequence(s, from, FindFrom(s, from))
    decreases |s| - from
  {
    var ms := FindFrom(s, from);
    if from >= |s| {
      forall m | IsMatch(s, m) ensures !(from <= m.start < |s| + 1) { }
    } else {
      match MatchAt(s, from)
      case Some(m) =>
        MatchAtExact(s, m);
        FindFromIsFindSequence(s, m.end);
        assert ms[1..] == FindFrom(s, m.end);
      case None =>
        FindFromIsFindSequence(s, from + 1);
        forall m | IsMatch(s, m) && m.start == from ensures false {
          MatchAtExact(s, m);
        }
        if FindFrom(s, from + 1) != [] {
          assert ms[1..] == FindFrom(s, from + 1)[1..];
        }
    }
  }

  lemma {:induction false} FindSequenceIsFindFrom(s: string, from: nat, ms: seq<Match>)
    requires IsFindSequence(s, from, ms)
    ensures ms == FindFrom(s, from)
    decreases |ms|
  {
    if ms == [] {
      if from < |s| {
        NoMatchSkipped(s, from, |s|);
      }
    } else {
      var m := ms[0];
      NoMatchSkipped(s, from, m.start);
      MatchAtExact(s, m);
      FindSequenceIsFindFrom(s, m.end, ms[1..]);
    }
  }

  /** The scan `processString` performs is exactly the leftmost-first,
      non-overlapping enumeration of the pattern's matches: FindFrom satisfies
      it, and nothing else does. */
  lemma FindFromCharacterized(s: string, from: nat, ms: seq<Match>)
    ensures IsFindSequence(s, from, ms) <==> ms == FindFrom(s, from)
  {
    if ms == FindFrom(s, from) {
      FindFromIsFindSequence(s, from);
    }
    if IsFindSequence(s, from, ms) {
      FindSequenceIsFindFrom(s, from, ms);
    }
  }

  // ---------------------------------------------------------------------
  // What the scanner emits.

  lemma {:induction false} FindSequenceMatches(s: string, from: nat, ms: seq<Match>, k: nat)
    requires IsFindSequence(s, from, ms)
    requires k < |ms|
    ensures IsMatch(s, ms[k]) && from <= ms[k].start
    ensures k + 1 < |ms| ==> ms[k].end <= ms[k + 1].start
    decreases |ms|
  {
    if k > 0 {
      FindSequenceMatches(s, ms[0].end, ms[1..], k - 1);
    } else if 1 < |ms| {
      FindSequenceMatches(s, ms[0].end, ms[1..], 0);
    }
  }

  /** Every token emitted is group 1 of a match: whole base64 blocks whose last
      one ends in "=" or "==", with a delimiter (optional backslash, then a
      single or double quote) right before and right after it; the matches come
      left to right and do not overlap. */
  lemma ScannedTokens(s: string, k: nat)
    requires k < |ScanText(s)|
    ensures var m := FindFrom(s, 0)[k];
      IsMatch(s, m) && ScanText(s)[k] == s[m.tokenStart..m.tokenEnd] &&
      (k + 1 < |ScanText(s)| ==> m.end <= FindFrom(s, 0)[k + 1].start)
  {
    FindFromIsFindSequence(s, 0);
    FindSequenceMatches(s, 0, FindFrom(s, 0), k);
    FindFromInBounds(s, 0);
    TokensAt(s, FindFrom(s, 0), k);
  }

  lemma {:induction false} TokensAt(s: string, ms: seq<Match>, k: nat)
    requires InBounds(s, ms)
    requires k < |ms|
    ensures Tokens(s, ms)[k] == s[ms[k].tokenStart..ms[k].tokenEnd]
    decreases k
  {
    if k > 0 {
      TokensAt(s, ms[1..], k - 1);
    }
  }

  /** Text without a padding character yields no candidate: an unpadded
      token such as "eyJ0ZXh0dXJlcyI6e319" is never emitted. */
  lemma UnpaddedTextYieldsNothing(s: string)
    requires '=' !in s
    ensures ScanText(s) == []
  {
    if ScanText(s) != [] {
      ScannedTokens(s, 0);
      assert false;
    }
  }

  lemma UnpaddedExample()
    ensures ScanText("say \"eyJ0ZXh0dXJlcyI6e319\"") == []
  {
    UnpaddedTextYieldsNothing("say \"eyJ0ZXh0dXJlcyI6e319\"");
  }

  /** A padded token between escaped double quotes, as it appears inside a
      JSON string of a data-pack file. */
  const PaddedSample: string := "\\\"YWI=\\\""

  lemma PaddedExample()
    ensures ScanText(PaddedSample) == ["YWI="]
  {
    var s := PaddedSample;
    assert |s| == 8;
    assert RunEnd(s, 2) == 5;
    assert MatchAt(s, 0) == Some(Match(0, 2, 6, 8));
    assert FindFrom(s, 0) == [Match(0, 2, 6, 8)];
    assert s[2..6] == "YWI=";
  }

  /** The two delimiters need not be the same quote. */
  lemma MixedQuotesExample()
    ensures ScanText("'YWI=\"") == ["YWI="]
  {
    var s := "'YWI=\"";
    assert RunEnd(s, 1) == 4;
    assert MatchAt(s, 0) == Some(Match(0, 1, 5, 6));
    assert FindFrom(s, 0) == [Match(0, 1, 5, 6)];
    assert s[1..5] == "YWI=";
  }

  /** One call of `find()`: the tokens still to come from `from` on. */
  lemma ScanStep(s: string, from: nat)
    requires from < |s|
    ensures InBounds(s, FindFrom(s, from))
    ensures MatchAt(s, from).None? ==> FindFrom(s, from) == FindFrom(s, from + 1)
    ensures MatchAt(s, from).Some? ==>
      var m := MatchAt(s, from).value;
      InBounds(s, FindFrom(s, m.end)) &&
      Tokens(s, FindFrom(s, from)) == [s[m.tokenStart..m.tokenEnd]] + Tokens(s, FindFrom(s, m.end))
  {
    FindFromInBounds(s, from);
    if MatchAt(s, from).Some? {
      var m := MatchAt(s, from).value;
      FindFromInBounds(s, m.end);
      assert FindFrom(s, from)[1..] == FindFrom(s, m.end);
    }
  }

  /** `processString`: the `while (m.find())` loop, each find trying the
      pattern at successive positions. */
  method ProcessString(s: string) returns (tokens: seq<string>)
    ensures tokens == ScanText(s)
  {
    tokens := [];
    var from := 0;
    FindFromInBounds(s, 0);
    while from < |s|
      invariant from <= |s|
      invariant InBounds(s, FindFrom(s, from))
      invariant tokens + Tokens(s, FindFrom(s, from)) == ScanText(s)
      decreases |s| - from
    {
      ScanStep(s, from);
      var found := MatchAt(s, from);
      match found {
        case Some(m) =>
          tokens := tokens + [s[m.tokenStart..m.tokenEnd]];
          from := m.end;
        case None =>
          from := from + 1;
      }
    }
  }
}
