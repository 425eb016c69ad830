/** The tokenizer of `RunCommand`: `regx.FindAllString(command, -1)` with
    `regx` the RE2 pattern `[^\s"']+|"([^"]*)"|'([^']*)`.

    The scan goes left to right. At each position RE2 tries the three
    alternatives in order (leftmost-first); each one starts with a different
    kind of character, so at most one applies. A match is returned whole, so
    quote characters stay in the tokens, and the next search starts where the
    match ended. A position where nothing matches is skipped. */
module Tokenizer {
  import opened Text

  /** RE2's `\s`: '\t', '\n', '\f', '\r' and ' ' (vertical tab is not one). */
  predicate IsSpace(c: char)
  {
    c == '\t' || c == '\n' || c == '\U{C}' || c == '\r' || c == ' '
  }

  /** A character of the class `[^\s"']`. */
  predicate IsPlain(c: char)
  {
    !IsSpace(c) && c != '"' && c != '\''
  }

  /** The index range [start, end) of one match in the line. */
  datatype Span = Span(start: nat, end: nat)

  /** The end of the longest run of `[^\s"']` characters that starts at `i`. */
  function PlainRunEnd(s: string, i: nat): (e: nat)
    requires i <= |s|
    ensures i <= e <= |s|
    ensures forall k :: i <= k < e ==> IsPlain(s[k])
    ensures e == |s| || !IsPlain(s[e])
    decreases |s| - i
  {
    if i < |s| && IsPlain(s[i]) then PlainRunEnd(s, i + 1) else i
  }

  /** Where the match of the pattern that starts exactly at `i` ends, if there
      is one:
      - `[^\s"']+` takes the longest run of plain characters;
      - `"([^"]*)"` runs through the next `"`, and fails if there is none;
      - `'([^']*)` takes the `'` and everything up to the next `'` (or the end
        of the line); the pattern has no closing quote. */
  function MatchAt(s: string, i: nat): (r: Option<nat>)
    requires i < |s|
  {
    if IsPlain(s[i]) then Some(PlainRunEnd(s, i))
    else if s[i] == '"' then
      match Find(s, '"', i + 1)
      case Some(j) => Some(j + 1)
      case None => None
    else if s[i] == '\'' then
      match Find(s, '\'', i + 1)
      case Some(j) => Some(j)
      case None => Some(|s|)
    else None
  }

  /** The spans lie in [lo, hi), are non-empty, and follow one another from
      left to right without overlapping. */
  predicate Ordered(spans: seq<Span>, lo: nat, hi: nat)
  {
    && (forall j :: 0 <= j < |spans| ==> lo <= spans[j].start < spans[j].end <= hi)
    && (forall j, k :: 0 <= j < k < |spans| ==> spans[j].end <= spans[k].start)
  }

  /** `regx.FindAllStringIndex(s[i..], -1)`, in positions of `s`: every match
      of the pattern found by scanning from `i`. */
  function Scan(s: string, i: nat): (r: seq<Span>)
    requires i <= |s|
    ensures Ordered(r, i, |s|)
    decreases |s| - i
  {
    if i == |s| then []
    else
      match MatchAt(s, i)
      case None => Scan(s, i + 1)
      case Some(e) => [Span(i, e)] + Scan(s, e)
  }

  /** `regx.FindAllString(line, -1)`: the text of every match, quotes kept. */
  function Tokenize(line: string): (tokens: seq<string>)
  {
    var spans := Scan(line, 0);
    seq(|spans|, j requires 0 <= j < |spans| => line[spans[j].start..spans[j].end])
  }

  // ---------------------------------------------------------------------------
  // What a match is, stated without the scanner.

  /** `s[start..end]` is a word of the pattern, and the one RE2 picks at
      `start`: the plain and the single-quoted alternatives are greedy, the
      double-quoted one stops at the first closing quote. */
  predicate LongestMatch(s: string, start: nat, end: nat)
  {
    && start < end <= |s|
    && (|| (&& IsPlain(s[start])
            && (forall k :: start <= k < end ==> IsPlain(s[k]))
            && (end == |s| || !IsPlain(s[end])))
        || (&& s[start] == '"' && start + 2 <= end && s[end - 1] == '"'
            && (forall k :: start < k < end - 1 ==> s[k] != '"'))
        || (&& s[start] == '\''
            && (forall k :: start < k < end ==> s[k] != '\'')
            && (end == |s| || s[end] == '\'')))
  }

  /** No match can start at `k`: white space, or a `"` with no `"` after it. */
  predicate Unmatchable(s: string, k: nat)
    requires k < |s|
  {
    IsSpace(s[k]) || (s[k] == '"' && forall m :: k < m < |s| ==> s[m] != '"')
  }

  /** Position `k` lies inside one of the spans. */
  predicate Covered(spans: seq<Span>, k: nat)
  {
    exists j :: 0 <= j < |spans| && spans[j].start <= k < spans[j].end
  }

  /** What `FindAll` returns, scanning `s` from `i`: ordered spans, each a
      longest match, and every position in no span one where nothing can
      match. */
  predicate AllMatches(s: string, i: nat, spans: seq<Span>)
    requires i <= |s|
  {
    && Ordered(spans, i, |s|)
    && (forall j :: 0 <= j < |spans| ==> LongestMatch(s, spans[j].start, spans[j].end))
    && (forall k :: i <= k < |s| && !Covered(spans, k) ==> Unmatchable(s, k))
  }

  /** The anchored match is exactly the pattern's longest match. */
  lemma MatchAtIsLongestMatch(s: string, i: nat, e: nat)
    requires i < |s|
    ensures MatchAt(s, i) == Some(e) <==> LongestMatch(s, i, e)
  {
    if LongestMatch(s, i, e) {
      if IsPlain(s[i]) {
        PlainRunEndUnique(s, i, e);
      } else if s[i] == '"' {
        FindUnique(s, '"', i + 1, e - 1);
      } else if e < |s| {
        FindUnique(s, '\'', i + 1, e);
      }
    }
  }

  /** Nothing matches at `i` exactly when `i` is unmatchable. */
  lemma NoMatchAtIsUnmatchable(s: string, i: nat)
    requires i < |s|
    ensures MatchAt(s, i).None? <==> Unmatchable(s, i)
  {
  }

  lemma PlainRunEndUnique(s: string, i: nat, e: nat)
    requires i <= e <= |s|
    requires forall k :: i <= k < e ==> IsPlain(s[k])
    requires e == |s| || !IsPlain(s[e])
    ensures PlainRunEnd(s, i) == e
  {
  }

  /** Every position in the span list is covered by the first span or by a
      later one. */
  lemma CoveredCons(sp: Span, rest: seq<Span>, k: nat)
    ensures Covered([sp] + rest, k) <==> (sp.start <= k < sp.end || Covered(rest, k))
  {
    var spans := [sp] + rest;
    if Covered(rest, k) {
      var j :| 0 <= j < |rest| && rest[j].start <= k < rest[j].end;
      assert spans[j + 1] == rest[j];
    }
    if Covered(spans, k) && !(sp.start <= k < sp.end) {
      var j :| 0 <= j < |spans| && spans[j].start <= k < spans[j].end;
      assert spans[0] == sp;
      assert rest[j - 1] == spans[j];
    }
  }

  /** The scanner finds exactly the matches `FindAll` is meant to find. */
  lemma {:induction false} ScanFindsAllMatches(s: string, i: nat)
    requires i <= |s|
    ensures AllMatches(s, i, Scan(s, i))
    decreases |s| - i
  {
    if i < |s| {
      match MatchAt(s, i)
      case None =>
        ScanFindsAllMatches(s, i + 1);
        NoMatchAtIsUnmatchable(s, i);
      case Some(e) =>
        ScanFindsAllMatches(s, e);
        MatchAtIsLongestMatch(s, i, e);
        var rest := Scan(s, e);
        var spans := [Span(i, e)] + rest;
        assert spans == Scan(s, i);
        forall j | 0 <= j < |spans|
          ensures LongestMatch(s, spans[j].start, spans[j].end)
        {
          if j > 0 {
            assert spans[j] == rest[j - 1];
          }
        }
        forall k | i <= k < |s| && !Covered(spans, k)
          ensures Unmatchable(s, k)
        {
          CoveredCons(Span(i, e), rest, k);
        }
    }
  }

  /** Conversely, the matches `FindAll` is meant to find are determined: any
      span list with those properties is the scanner's. */
  lemma {:induction false} AllMatchesAreScan(s: string, i: nat, spans: seq<Span>)
    requires i <= |s|
    requires AllMatches(s, i, spans)
    ensures spans == Scan(s, i)
    decreases |s| - i
  {
    if spans == [] || spans[0].start > i {
      if i < |s| {
        assert !Covered(spans, i) by {
          forall j | 0 <= j < |spans|
            ensures !(spans[j].start <= i < spans[j].end)
          {
            if j > 0 {
              assert spans[0].end <= spans[j].start;
            }
          }
        }
        NoMatchAtIsUnmatchable(s, i);
        AllMatchesAreScan(s, i + 1, spans);
      }
    } else {
      var e := spans[0].end;
      var rest := spans[1..];
      assert spans == [Span(i, e)] + rest;
      MatchAtIsLongestMatch(s, i, e);
      forall j | 0 <= j < |rest|
        ensures e <= rest[j].start
      {
        assert rest[j] == spans[j + 1];
      }
      forall k | e <= k < |s| && !Covered(rest, k)
        ensures Unmatchable(s, k)
      {
        CoveredCons(Span(i, e), rest, k);
      }
      assert AllMatches(s, e, rest);
      AllMatchesAreScan(s, e, rest);
    }
  }

  // ---------------------------------------------------------------------------
  // Properties of the tokens.

  /** The tokens are non-empty substrings of the line, taken from ranges that
      follow one another from left to right without overlapping. */
  lemma TokensAreOrderedSubstrings(line: string)
    ensures var spans := Scan(line, 0);
      && |Tokenize(line)| == |spans|
      && Ordered(spans, 0, |line|)
      && forall j :: 0 <= j < |spans| ==>
           |Tokenize(line)[j]| > 0 && Tokenize(line)[j] == line[spans[j].start..spans[j].end]
  {
  }

  /** The three shapes a token can have. A token not starting with a quote
      has no white space and no quote in it; one starting with `"` ends with
      `"` and has no other `"`; one starting with `'` has no other `'`. */
  predicate TokenShape(t: string)
  {
    && t != []
    && (t[0] != '"' && t[0] != '\'' ==> forall k :: 0 <= k < |t| ==> IsPlain(t[k]))
    && (t[0] == '"' ==> |t| >= 2 && t[|t| - 1] == '"' && forall k :: 0 < k < |t| - 1 ==> t[k] != '"')
    && (t[0] == '\'' ==> forall k :: 0 < k < |t| ==> t[k] != '\'')
  }

  lemma {:induction false} TokenShapes(line: string)
    ensures forall t :: t in Tokenize(line) ==> TokenShape(t)
  {
    ScanFindsAllMatches(line, 0);
    var spans := Scan(line, 0);
    var tokens := Tokenize(line);
    forall j | 0 <= j < |tokens|
      ensures TokenShape(tokens[j])
    {
      var sp := spans[j];
      assert LongestMatch(line, sp.start, sp.end);
      var t := line[sp.start..sp.end];
      assert tokens[j] == t;
      assert forall k :: 0 <= k < |t| ==> t[k] == line[sp.start + k];
    }
  }

  /** A `"` with no `"` after it starts no token: the scan goes on with the
      next character. */
  lemma DanglingQuoteSkipped(s: string, k: nat)
    requires k < |s| && s[k] == '"'
    requires forall m :: k < m < |s| ==> s[m] != '"'
    ensures Scan(s, k) == Scan(s, k + 1)
  {
  }

  /** A line yields no token exactly when no position of it can start a
      match: it holds only white space and `"` characters, none of them
      followed by another `"`. */
  lemma {:induction false} NoTokensIff(line: string)
    ensures Tokenize(line) == [] <==> forall k :: 0 <= k < |line| ==> Unmatchable(line, k)
  {
    ScanFindsAllMatches(line, 0);
    if forall k :: 0 <= k < |line| ==> Unmatchable(line, k) {
      AllMatchesAreScan(line, 0, []);
    } else {
      var k :| 0 <= k < |line| && !Unmatchable(line, k);
      assert Covered(Scan(line, 0), k);
    }
  }

  // ---------------------------------------------------------------------------
  // Worked lines: quotes stay in the tokens.

  /** `cmd "a b" c`: the double-quoted word is one token, quotes included. */
  lemma ExampleDoubleQuoted()
    ensures Tokenize("cmd \"a b\" c") == ["cmd", "\"a b\"", "c"]
  {
    var s := "cmd \"a b\" c";
    assert PlainRunEnd(s, 10) == 11;
    assert Scan(s, 9) == Scan(s, 10) == [Span(10, 11)];
    assert Find(s, '"', 5) == Some(8);
    assert Scan(s, 4) == [Span(4, 9), Span(10, 11)];
    assert PlainRunEnd(s, 0) == 3;
    assert Scan(s, 0) == [Span(0, 3), Span(4, 9), Span(10, 11)];
    var t := Tokenize(s);
    assert t[0] == s[0..3] == "cmd";
    assert t[1] == s[4..9] == "\"a b\"";
    assert t[2] == s[10..11] == "c";
  }

  /** `'abc' d`: a single quote opens a token that runs to the next `'`, so
      the second quote opens a token of its own. */
  lemma ExampleSingleQuoted()
    ensures Tokenize("'abc' d") == ["'abc", "' d"]
  {
    var s := "'abc' d";
    assert Find(s, '\'', 5) == None;
    assert Scan(s, 4) == [Span(4, 7)];
    assert Find(s, '\'', 1) == Some(4);
    assert Scan(s, 0) == [Span(0, 4), Span(4, 7)];
    var t := Tokenize(s);
    assert t[0] == s[0..4] == "'abc";
    assert t[1] == s[4..7] == "' d";
  }

  /** `a "b`: the dangling `"` belongs to no token. */
  lemma ExampleDanglingQuote()
    ensures Tokenize("a \"b") == ["a", "b"]
  {
    var s := "a \"b";
    assert PlainRunEnd(s, 3) == 4;
    assert Scan(s, 3) == [Span(3, 4)];
    assert Find(s, '"', 3) == None;
    assert Scan(s, 1) == Scan(s, 2) == Scan(s, 3);
    assert PlainRunEnd(s, 0) == 1;
    assert Scan(s, 0) == [Span(0, 1), Span(3, 4)];
    var t := Tokenize(s);
    assert t[0] == s[0..1] == "a";
    assert t[1] == s[3..4] == "b";
  }
}
