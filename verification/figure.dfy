/** The figure reference a question body may carry: the search of
    `(^|\s)[fF]igure\s+(?P<fig>[TGE]\d?-\d+)` over the body text, which yields the
    `fig` group of the leftmost match. */
module Figure {
  import opened Wrappers
  import opened Text

  predicate IsDigit(c: char)
  {
    '0' <= c <= '9'
  }

  /** A subelement letter of a figure code: T, G or E. */
  predicate IsCodeLetter(c: char)
  {
    c == 'T' || c == 'G' || c == 'E'
  }

  /** The word "figure", with a lower- or upper-case first letter, starts at `p`. */
  predicate WordAt(s: string, p: nat)
  {
    p + 6 <= |s| && (s[p] == 'f' || s[p] == 'F')
    && s[p + 1] == 'i' && s[p + 2] == 'g' && s[p + 3] == 'u' && s[p + 4] == 'r' && s[p + 5] == 'e'
  }

  /** Length of the run of digits starting at `i` (what it spans is
      `DigitRunSpans`). */
  function DigitRun(s: string, i: nat): (n: nat)
    ensures i + n <= |s| || (i > |s| && n == 0)
    decreases |s| - i
  {
    if i < |s| && IsDigit(s[i]) then 1 + DigitRun(s, i + 1) else 0
  }

  /** The run is digits and ends at a character that is not one. */
  lemma {:induction false} DigitRunSpans(s: string, i: nat)
    ensures forall k :: i <= k < i + DigitRun(s, i) ==> IsDigit(s[k])
    ensures i + DigitRun(s, i) < |s| ==> !IsDigit(s[i + DigitRun(s, i)])
    decreases |s| - i
  {
    if i < |s| && IsDigit(s[i]) {
      DigitRunSpans(s, i + 1);
    }
  }

  /** A figure code: a subelement letter, at most one digit, a dash and at least
      one digit, e.g. "T-1" or "E7-3". */
  predicate IsFigureCode(c: string)
  {
    |c| >= 3 && IsCodeLetter(c[0]) && IsDigit(c[|c| - 1])
    && (c[1] == '-' || (IsDigit(c[1]) && |c| >= 4 && c[2] == '-'))
    && forall k :: (if c[1] == '-' then 2 else 3) <= k < |c| ==> IsDigit(c[k])
  }

  /** The `fig` group of a match whose word "figure" starts at `p`, if the pattern
      matches there: the word at the start of the text or after whitespace, then
      at least one whitespace, then the code with the longest run of final digits.
      `\d?` only keeps its digit when a dash follows it. */
  function FigureAt(s: string, p: nat): (r: Option<string>)
    ensures r.Some? ==> IsFigureCode(r.value)
    ensures r.Some? ==> WordAt(s, p) && (p == 0 || IsSpace(s[p - 1]))
  {
    if !WordAt(s, p) then None
    else if !(p == 0 || IsSpace(s[p - 1])) then None
    else
      var ws := SpaceRun(s, p + 6);
      var q := p + 6 + ws;
      if ws == 0 || q >= |s| || !IsCodeLetter(s[q]) then None
      else
        var dash := if q + 1 < |s| && IsDigit(s[q + 1]) then q + 2 else q + 1;
        if dash >= |s| || s[dash] != '-' then None
        else
          var n := DigitRun(s, dash + 1);
          DigitRunSpans(s, dash + 1);
          if n == 0 then None else Some(s[q..dash + 1 + n])
  }

  // ---------------------------------------------------------------------------
  // What a match at a position means, stated without computing it

  /** The code `code` stands at `q`, and no digit follows it (`\d+` is greedy). */
  predicate CodeAt(s: string, q: nat, code: string)
  {
    q + |code| <= |s| && s[q..q + |code|] == code && IsFigureCode(code)
    && (q + |code| == |s| || !IsDigit(s[q + |code|]))
  }

  /** The figure pattern matches with the word "figure" at `p` and captures
      `code`: the word at the start or after whitespace, a non-empty gap of
      whitespace, then the code. */
  predicate MatchAt(s: string, p: nat, code: string)
  {
    && WordAt(s, p) && (p == 0 || IsSpace(s[p - 1]))
    && exists q: nat :: p + 6 < q <= |s| && AllSpace(s[p + 6..q]) && CodeAt(s, q, code)
  }

  /** A run of digits from `i` that ends at `j` is the one `DigitRun` measures. */
  lemma {:induction false} DigitRunExact(s: string, i: nat, j: nat)
    requires i <= j <= |s| && (forall k :: i <= k < j ==> IsDigit(s[k])) && (j == |s| || !IsDigit(s[j]))
    ensures DigitRun(s, i) == j - i
    decreases j - i
  {
    if i < j {
      DigitRunExact(s, i + 1, j);
    }
  }

  /** `FigureAt` is the match: it returns a code exactly when the pattern
      matches at `p` with that code, and the code of a match is unique. */
  lemma FigureAtMatches(s: string, p: nat)
    ensures FigureAt(s, p).Some? ==> MatchAt(s, p, FigureAt(s, p).value)
    ensures forall code :: MatchAt(s, p, code) ==> FigureAt(s, p) == Some(code)
  {
    if FigureAt(s, p).Some? {
      FigureIsMatch(s, p);
    }
    forall code | MatchAt(s, p, code) ensures FigureAt(s, p) == Some(code) {
      MatchDeterminesFigure(s, p, code);
    }
  }

  /** The code `FigureAt` finds is a match at `p`. */
  lemma FigureIsMatch(s: string, p: nat)
    requires FigureAt(s, p).Some?
    ensures MatchAt(s, p, FigureAt(s, p).value)
  {
    var q, dash, n := FigureAtShape(s, p);
    CodeFound(s, q, dash, n);
    var gap := s[p + 6..q];
    SpaceRunSpans(s, p + 6);
    forall k | 0 <= k < |gap| ensures IsSpace(gap[k]) {
      assert gap[k] == s[p + 6 + k];
    }
  }

  /** Where the code `FigureAt` finds stands: after the gap, with its dash at
      `dash` and `n` digits after the dash. */
  lemma FigureAtShape(s: string, p: nat) returns (q: nat, dash: nat, n: nat)
    requires FigureAt(s, p).Some?
    ensures q == p + 6 + SpaceRun(s, p + 6) && p + 6 < q < |s| && IsCodeLetter(s[q])
    ensures dash == (if q + 1 < |s| && IsDigit(s[q + 1]) then q + 2 else q + 1)
    ensures dash < |s| && s[dash] == '-'
    ensures n == DigitRun(s, dash + 1) && n > 0
    ensures FigureAt(s, p) == Some(s[q..dash + 1 + n])
  {
    q := p + 6 + SpaceRun(s, p + 6);
    dash := if q + 1 < |s| && IsDigit(s[q + 1]) then q + 2 else q + 1;
    n := DigitRun(s, dash + 1);
  }

  /** A letter, an optional digit, a dash and a maximal run of digits make a
      code that stands at `q`. */
  lemma CodeFound(s: string, q: nat, dash: nat, n: nat)
    requires q < |s| && IsCodeLetter(s[q])
    requires dash == (if q + 1 < |s| && IsDigit(s[q + 1]) then q + 2 else q + 1)
    requires dash < |s| && s[dash] == '-'
    requires n == DigitRun(s, dash + 1) && n > 0
    ensures CodeAt(s, q, s[q..dash + 1 + n])
  {
    DigitRunSpans(s, dash + 1);
    var c := s[q..dash + 1 + n];
    assert c[0] == s[q] && c[1] == s[q + 1] && c[2] == s[q + 2];
    forall k | dash + 1 - q <= k < |c| ensures IsDigit(c[k]) {
      assert c[k] == s[q + k];
    }
  }

  /** A match at `p` with `code` forces `FigureAt` to find that very code. */
  lemma MatchDeterminesFigure(s: string, p: nat, code: string)
    requires MatchAt(s, p, code)
    ensures FigureAt(s, p) == Some(code)
  {
    var q: nat :| p + 6 < q <= |s| && AllSpace(s[p + 6..q]) && CodeAt(s, q, code);
    var dash := CodeParts(s, q, code);
    SpaceRunExact(s, p + 6, q);
    FigureAtFound(s, p, q, dash, DigitRun(s, dash + 1));
  }

  /** A code at `q` starts with its letter, has its dash at `dash`, and ends
      where the run of digits after the dash ends. */
  lemma CodeParts(s: string, q: nat, code: string) returns (dash: nat)
    requires CodeAt(s, q, code)
    ensures q < |s| && IsCodeLetter(s[q]) && !IsSpace(s[q])
    ensures dash == (if q + 1 < |s| && IsDigit(s[q + 1]) then q + 2 else q + 1)
    ensures dash < |s| && s[dash] == '-'
    ensures dash + 1 + DigitRun(s, dash + 1) == q + |code|
    ensures s[q..q + |code|] == code
  {
    var c := s[q..q + |code|];
    assert c[0] == s[q] && c[1] == s[q + 1] && c[2] == s[q + 2];
    dash := if code[1] == '-' then q + 1 else q + 2;
    forall k | dash + 1 <= k < q + |code| ensures IsDigit(s[k]) {
      assert s[k] == c[k - q];
    }
    DigitRunExact(s, dash + 1, q + |code|);
  }

  /** The steps of `FigureAt` that succeed, given where the code and its dash stand. */
  lemma FigureAtFound(s: string, p: nat, q: nat, dash: nat, n: nat)
    requires WordAt(s, p) && (p == 0 || IsSpace(s[p - 1]))
    requires q == p + 6 + SpaceRun(s, p + 6) && p + 6 < q < |s| && IsCodeLetter(s[q])
    requires dash == (if q + 1 < |s| && IsDigit(s[q + 1]) then q + 2 else q + 1)
    requires dash < |s| && s[dash] == '-'
    requires n == DigitRun(s, dash + 1) && n > 0
    ensures FigureAt(s, p) == Some(s[q..dash + 1 + n])
  {
  }

  /** Position of the leftmost match at or after `from`. */
  function FirstFigure(s: string, from: nat): (r: Option<nat>)
    ensures r.Some? ==> from <= r.value <= |s| && FigureAt(s, r.value).Some?
    ensures r.Some? ==> forall p :: from <= p < r.value ==> FigureAt(s, p).None?
    ensures r.None? ==> forall p :: from <= p <= |s| ==> FigureAt(s, p).None?
    decreases |s| + 1 - from
  {
    if from > |s| then None
    else if FigureAt(s, from).Some? then Some(from)
    else FirstFigure(s, from + 1)
  }

  /** The `figure` of a question: "" unless the body holds a figure reference,
      and then the code of the leftmost one. */
  function FindFigure(text: string): (r: string)
    ensures r == "" <==> forall p :: 0 <= p <= |text| ==> FigureAt(text, p).None?
    ensures r != "" ==> IsFigureCode(r)
    ensures r != "" ==> exists p :: 0 <= p <= |text| && FigureAt(text, p) == Some(r)
                          && forall p' :: 0 <= p' < p ==> FigureAt(text, p').None?
  {
    match FirstFigure(text, 0)
    case None => ""
    case Some(p) => FigureAt(text, p).value
  }

  /** The figure of a body in terms of the pattern alone: `""` exactly when the
      pattern matches nowhere, otherwise the code of the leftmost match. */
  lemma FindFigureMatches(text: string)
    ensures FindFigure(text) == "" <==>
              forall p: nat, code :: p <= |text| ==> !MatchAt(text, p, code)
    ensures FindFigure(text) != "" ==>
              exists p: nat :: p <= |text| && MatchAt(text, p, FindFigure(text))
                && forall p': nat, code :: p' < p ==> !MatchAt(text, p', code)
  {
    match FirstFigure(text, 0)
    case None =>
      forall p: nat, code | p <= |text| ensures !MatchAt(text, p, code) {
        FigureAtMatches(text, p);
      }
    case Some(p0) =>
      FigureAtMatches(text, p0);
      forall p': nat, code | p' < p0 ensures !MatchAt(text, p', code) {
        FigureAtMatches(text, p');
      }
  }
}
