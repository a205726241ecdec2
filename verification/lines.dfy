/** The line source: `Filelines`, an iterator over the extracted lines that hands
    out one empty sentinel after the last line, and `read_fline`, which normalises
    "smart" punctuation and skips blank lines. */
module LineSource {
  import opened Text

  /** A list of lines and the index of the next one to hand out. */
  datatype Filelines = Filelines(lines: seq<string>, index: nat)

  /** `Filelines(listobj)`: positioned at the first line. */
  function NewFilelines(lines: seq<string>): (f: Filelines)
    ensures f.lines == lines && f.index == 0
  {
    Filelines(lines, 0)
  }

  /** `__iter__`: the same lines, positioned at the start again. */
  function Iter(f: Filelines): (r: Filelines)
    ensures r.lines == f.lines && r.index == 0
  {
    f.(index := 0)
  }

  /** `__len__`: the number of lines, not counting the sentinel. */
  function Len(f: Filelines): (n: nat)
    ensures n == |f.lines|
  {
    |f.lines|
  }

  /** Number of `__next__` calls that still return something: the remaining
      lines plus the sentinel. */
  function Remaining(f: Filelines): nat
  {
    if f.index <= |f.lines| then |f.lines| + 1 - f.index else 0
  }

  /** The outcome of one `__next__` call. */
  datatype NextResult =
    | Item(line: string, num: nat, rest: Filelines)
    | Stop      // StopIteration

  /** `__next__`: the next line with its 1-based number; one `''` past the end;
      StopIteration from then on. */
  function Next(f: Filelines): (r: NextResult)
    ensures r.Stop? <==> Remaining(f) == 0
    ensures r.Item? ==> r.rest.lines == f.lines && r.num == f.index + 1 && r.rest.index == r.num
                        && Remaining(r.rest) == Remaining(f) - 1
    ensures r.Item? && f.index < |f.lines| ==> r.line == f.lines[f.index]
    ensures r.Item? && f.index == |f.lines| ==> r.line == ""
  {
    if f.index <= |f.lines| then
      var line := if f.index < |f.lines| then f.lines[f.index] else "";
      Item(line, f.index + 1, f.(index := f.index + 1))
    else
      Stop
  }

  /** Everything successive `__next__` calls return until StopIteration. */
  function Drain(f: Filelines): seq<(string, nat)>
    decreases Remaining(f)
  {
    match Next(f)
    case Stop => []
    case Item(line, num, rest) => [(line, num)] + Drain(rest)
  }

  /** Iterating a fresh `Filelines` yields every line in order with its 1-based
      number, then exactly one `('', len + 1)`, then nothing more. */
  lemma {:induction false} DrainFresh(lines: seq<string>)
    ensures |Drain(NewFilelines(lines))| == |lines| + 1
    ensures forall k :: 0 <= k < |lines| ==> Drain(NewFilelines(lines))[k] == (lines[k], k + 1)
    ensures Drain(NewFilelines(lines))[|lines|] == ("", |lines| + 1)
  {
    DrainFrom(Filelines(lines, 0));
  }

  lemma {:induction false} DrainFrom(f: Filelines)
    requires f.index <= |f.lines|
    ensures |Drain(f)| == |f.lines| + 1 - f.index
    ensures forall k :: f.index <= k < |f.lines| ==> Drain(f)[k - f.index] == (f.lines[k], k + 1)
    ensures Drain(f)[|f.lines| - f.index] == ("", |f.lines| + 1)
    decreases Remaining(f)
  {
    var rest := f.(index := f.index + 1);
    if f.index == |f.lines| {
      assert Next(rest).Stop?;
    } else {
      DrainFrom(rest);
    }
  }

  /** After the sentinel every call raises StopIteration. */
  lemma ExhaustedStaysExhausted(f: Filelines)
    requires Remaining(f) == 0
    ensures Next(f) == Stop && Drain(f) == []
  {
  }

  /** The "smart" punctuation `fix_line` rewrites. */
  predicate IsSmartPunctuation(c: char)
  {
    c == '\U{2013}' || c == '\U{2018}' || c == '\U{2019}' || c == '\U{201C}' || c == '\U{201D}'
  }

  /** One character of `fix_line`: en dash to `-`, curly single quotes to `'`,
      curly double quotes to `"`; everything else unchanged. */
  function FixChar(c: char): (r: char)
    ensures !IsSmartPunctuation(r)
    ensures !IsSmartPunctuation(c) ==> r == c
    ensures c == '\U{2013}' ==> r == '-'
    ensures (c == '\U{2018}' || c == '\U{2019}') ==> r == '\''
    ensures (c == '\U{201C}' || c == '\U{201D}') ==> r == '"'
  {
    if c == '\U{2013}' then '-'
    else if c == '\U{2018}' || c == '\U{2019}' then '\''
    else if c == '\U{201C}' || c == '\U{201D}' then '"'
    else c
  }

  /** `fix_line`: the five chained `replace` calls, one character at a time
      (each replaces one character by one character, so the order does not matter). */
  function FixLine(s: string): (r: string)
    ensures |r| == |s|
    ensures forall i :: 0 <= i < |s| ==> r[i] == FixChar(s[i])
  {
    if |s| == 0 then "" else [FixChar(s[0])] + FixLine(s[1..])
  }

  /** After `fix_line` no smart punctuation is left, it leaves every other
      character alone, and fixing twice is fixing once. */
  lemma FixLineNormalises(s: string)
    ensures forall i :: 0 <= i < |FixLine(s)| ==> !IsSmartPunctuation(FixLine(s)[i])
    ensures forall i :: 0 <= i < |s| && !IsSmartPunctuation(s[i]) ==> FixLine(s)[i] == s[i]
    ensures FixLine(FixLine(s)) == FixLine(s)
  {
  }

  /** `fix_line` keeps a line empty exactly when it was empty, and blank exactly
      when it was blank (none of the rewritten characters is whitespace). */
  lemma FixLinePreservesBlank(s: string)
    ensures |FixLine(s)| == 0 <==> |s| == 0
    ensures AllSpace(FixLine(s)) <==> AllSpace(s)
  {
    assert forall i :: 0 <= i < |s| ==> (IsSpace(FixLine(s)[i]) <==> IsSpace(s[i]));
  }

  /** What `read_fline` returns: the line, its number and the advanced source. */
  datatype ReadResult = ReadResult(line: string, num: int, rest: Filelines)

  /** `read_fline(filelines, skip_blank)`: the next line, normalised; with
      `skipBlank`, lines that are non-empty but blank are passed over (the empty
      sentinel never is); once the source is exhausted, `('', len)`. */
  function ReadLine(f: Filelines, skipBlank: bool): (r: ReadResult)
    ensures r.rest.lines == f.lines
    ensures Remaining(f) == 0 ==> r == ReadResult("", |f.lines|, f)
    ensures Remaining(f) > 0 ==> Remaining(r.rest) < Remaining(f) && r.num == r.rest.index
    ensures Remaining(f) > 0 ==> 1 <= r.num <= |f.lines| + 1
    ensures Remaining(f) > 0 && r.num <= |f.lines| ==> r.line == FixLine(f.lines[r.num - 1])
    ensures Remaining(f) > 0 && r.num == |f.lines| + 1 ==> r.line == ""
    ensures skipBlank ==> r.line == "" || |Strip(r.line)| > 0
    ensures !skipBlank ==> Remaining(r.rest) + 1 == Remaining(f) || Remaining(f) == 0
  {
    match Next(f)
    case Stop => ReadResult("", |f.lines|, f)
    case Item(raw, num, rest) => SkipBlank(raw, num, rest, skipBlank)
  }

  /** The `while` loop of `read_fline`, entered with the raw line just read
      (number `num`) and the source positioned after it. */
  function SkipBlank(raw: string, num: nat, f: Filelines, skipBlank: bool): (r: ReadResult)
    requires 1 <= num <= |f.lines| + 1 && f.index == num
    requires num <= |f.lines| ==> raw == f.lines[num - 1]
    requires num == |f.lines| + 1 ==> raw == ""
    ensures r.rest.lines == f.lines
    ensures r.num == r.rest.index && num <= r.num <= |f.lines| + 1
    ensures r.num <= |f.lines| ==> r.line == FixLine(f.lines[r.num - 1])
    ensures r.num == |f.lines| + 1 ==> r.line == ""
    ensures skipBlank ==> r.line == "" || |Strip(r.line)| > 0
    ensures !skipBlank ==> r == ReadResult(FixLine(raw), num, f)
    decreases Remaining(f)
  {
    var line := FixLine(raw);
    if |line| > 0 && |Strip(line)| == 0 && skipBlank then
      // a non-empty line is a real one, so `next` still has a line or the sentinel
      var raw' := if num < |f.lines| then f.lines[num] else "";
      SkipBlank(raw', num + 1, f.(index := num + 1), skipBlank)
    else
      ReadResult(line, num, f)
  }

  /** Every line `read_fline` passed over was a non-empty blank line, and it
      passes over none when blank-skipping is off. */
  lemma SkippedLinesAreBlank(f: Filelines, skipBlank: bool)
    ensures forall k :: f.index <= k < ReadLine(f, skipBlank).rest.index - 1 ==>
              skipBlank && |f.lines[k]| > 0 && |Strip(FixLine(f.lines[k]))| == 0
  {
    match Next(f)
    case Stop =>
      assert ReadLine(f, skipBlank).rest == f;
    case Item(raw, num, rest) =>
      SkipBlankSkipsBlank(raw, num, rest, skipBlank);
  }

  lemma {:induction false} SkipBlankSkipsBlank(raw: string, num: nat, f: Filelines, skipBlank: bool)
    requires 1 <= num <= |f.lines| + 1 && f.index == num
    requires num <= |f.lines| ==> raw == f.lines[num - 1]
    requires num == |f.lines| + 1 ==> raw == ""
    ensures forall k :: num - 1 <= k < SkipBlank(raw, num, f, skipBlank).rest.index - 1 ==>
              skipBlank && |f.lines[k]| > 0 && |Strip(FixLine(f.lines[k]))| == 0
    decreases Remaining(f)
  {
    var r := SkipBlank(raw, num, f, skipBlank);
    var line := FixLine(raw);
    if |line| > 0 && |Strip(line)| == 0 && skipBlank {
      var raw', f' := if num < |f.lines| then f.lines[num] else "", f.(index := num + 1);
      SkipBlankSkipsBlank(raw', num + 1, f', skipBlank);
      assert r == SkipBlank(raw', num + 1, f', skipBlank);
      assert num <= |f.lines| && f.lines[num - 1] == raw;
      BlankRangeExtends(f.lines, num, r.rest.index - 1, skipBlank);
    } else {
      assert r.rest == f;
    }
  }

  /** A skipped blank line in front of a run of skipped blank lines. */
  lemma BlankRangeExtends(lines: seq<string>, lo: nat, hi: int, skipBlank: bool)
    requires 1 <= lo <= |lines| && hi <= |lines|
    requires skipBlank && |lines[lo - 1]| > 0 && |Strip(FixLine(lines[lo - 1]))| == 0
    requires forall k :: lo <= k < hi ==> skipBlank && |lines[k]| > 0 && |Strip(FixLine(lines[k]))| == 0
    ensures forall k :: lo - 1 <= k < hi ==> skipBlank && |lines[k]| > 0 && |Strip(FixLine(lines[k]))| == 0
  {
  }
}
