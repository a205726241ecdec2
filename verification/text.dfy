/** String helpers with the meaning Python's `str` methods give them in the parser:
    whitespace (`str.isspace`), `strip`, `rstrip(ch)`, `split(sep)` and the `in`
    substring test. */
module Text {

  /** The characters for which Python's `str.isspace()` is true; `strip()` with no
      argument removes exactly these. */
  predicate IsSpace(c: char)
  {
    || c == ' ' || c == '\t' || c == '\n' || c == '\r'
    || c == '\U{0B}' || c == '\U{0C}'
    || c == '\U{1C}' || c == '\U{1D}' || c == '\U{1E}' || c == '\U{1F}'
    || c == '\U{85}' || c == '\U{A0}' || c == '\U{1680}'
    || ('\U{2000}' <= c <= '\U{200A}')
    || c == '\U{2028}' || c == '\U{2029}' || c == '\U{202F}' || c == '\U{205F}'
    || c == '\U{3000}'
  }

  predicate AllSpace(s: string)
  {
    forall i :: 0 <= i < |s| ==> IsSpace(s[i])
  }

  /** Neither end of `s` is whitespace: what `strip()` leaves. */
  predicate Stripped(s: string)
  {
    |s| == 0 || (!IsSpace(s[0]) && !IsSpace(s[|s| - 1]))
  }

  /** Length of the run of whitespace starting at `i` (what it spans is
      `SpaceRunSpans`). */
  function SpaceRun(s: string, i: nat): (n: nat)
    ensures i + n <= |s| || (i > |s| && n == 0)
    decreases |s| - i
  {
    if i < |s| && IsSpace(s[i]) then 1 + SpaceRun(s, i + 1) else 0
  }

  /** The run is whitespace and ends at a character that is not. */
  lemma {:induction false} SpaceRunSpans(s: string, i: nat)
    ensures forall k :: i <= k < i + SpaceRun(s, i) ==> IsSpace(s[k])
    ensures i + SpaceRun(s, i) < |s| ==> !IsSpace(s[i + SpaceRun(s, i)])
    decreases |s| - i
  {
    if i < |s| && IsSpace(s[i]) {
      SpaceRunSpans(s, i + 1);
    }
  }

  /** A run of whitespace from `i` that ends at `j` is the one `SpaceRun` measures. */
  lemma {:induction false} SpaceRunExact(s: string, i: nat, j: nat)
    requires i <= j <= |s| && AllSpace(s[i..j]) && (j == |s| || !IsSpace(s[j]))
    ensures SpaceRun(s, i) == j - i
    decreases j - i
  {
    if i < j {
      assert IsSpace(s[i..j][0]);
      assert s[i + 1..j] == s[i..j][1..];
      SpaceRunExact(s, i + 1, j);
    }
  }

  /** Length of the run of whitespace that ends just before `j` (what it spans
      is `SpaceRunBackSpans`). */
  function SpaceRunBack(s: string, j: nat): (n: nat)
    requires j <= |s|
    ensures n <= j
    decreases j
  {
    if j > 0 && IsSpace(s[j - 1]) then 1 + SpaceRunBack(s, j - 1) else 0
  }

  /** The run is whitespace and starts after a character that is not. */
  lemma {:induction false} SpaceRunBackSpans(s: string, j: nat)
    requires j <= |s|
    ensures forall k :: j - SpaceRunBack(s, j) <= k < j ==> IsSpace(s[k])
    ensures SpaceRunBack(s, j) < j ==> !IsSpace(s[j - SpaceRunBack(s, j) - 1])
    decreases j
  {
    if j > 0 && IsSpace(s[j - 1]) {
      SpaceRunBackSpans(s, j - 1);
    }
  }

  /** A run of whitespace that ends before `j` and starts at `i` is the one
      `SpaceRunBack` measures. */
  lemma {:induction false} SpaceRunBackExact(s: string, i: nat, j: nat)
    requires i <= j <= |s| && AllSpace(s[i..j]) && (i == 0 || !IsSpace(s[i - 1]))
    ensures SpaceRunBack(s, j) == j - i
    decreases j - i
  {
    if i < j {
      assert IsSpace(s[i..j][j - i - 1]);
      assert s[i..j - 1] == s[i..j][..j - i - 1];
      SpaceRunBackExact(s, i, j - 1);
    }
  }

  /** `s.strip()`: whitespace removed from both ends. That the result is the
      slice between the leading and the trailing whitespace is `StripAt`, and
      that this pins the result down is `StripOfPadded`. */
  function Strip(s: string): (r: string)
    ensures Stripped(r)
    ensures |r| <= |s|
  {
    SpaceRunSpans(s, 0);
    SpaceRunBackSpans(s, |s|);
    var lo := SpaceRun(s, 0);
    if lo == |s| then "" else s[lo..|s| - SpaceRunBack(s, |s|)]
  }

  /** `strip()` removes only whitespace, and only at the ends: the result is a
      contiguous slice of the input with whitespace on either side of it. */
  lemma StripIsSlice(s: string)
    ensures var r := Strip(s);
            exists lo :: 0 <= lo <= |s| - |r| && s[lo..lo + |r|] == r
                         && AllSpace(s[..lo]) && AllSpace(s[lo + |r|..])
  {
    var lo := StripAt(s);
  }

  /** Where the stripped text starts: after `lo` whitespace characters. */
  lemma StripAt(s: string) returns (lo: nat)
    ensures lo <= |s| - |Strip(s)|
    ensures s[lo..lo + |Strip(s)|] == Strip(s)
    ensures AllSpace(s[..lo]) && AllSpace(s[lo + |Strip(s)|..])
  {
    lo := SpaceRun(s, 0);
    SpaceRunSpans(s, 0);
    SpaceRunBackSpans(s, |s|);
    if lo < |s| {
      var hi := |s| - SpaceRunBack(s, |s|);
      assert s[lo..hi] == Strip(s);
      assert forall k :: 0 <= k < |s| - hi ==> s[hi..][k] == s[hi + k];
    }
    assert forall k :: 0 <= k < lo ==> s[..lo][k] == s[k];
  }

  /** The converse: text with no whitespace at either end, padded with nothing
      but whitespace, strips back to exactly that text. */
  lemma StripOfPadded(s: string, lo: nat, hi: nat)
    requires lo < hi <= |s|
    requires AllSpace(s[..lo]) && AllSpace(s[hi..])
    requires !IsSpace(s[lo]) && !IsSpace(s[hi - 1])
    ensures Strip(s) == s[lo..hi]
  {
    assert s[0..lo] == s[..lo];
    SpaceRunExact(s, 0, lo);
    assert s[hi..|s|] == s[hi..];
    SpaceRunBackExact(s, hi, |s|);
  }

  /** Stripping a string that has no whitespace at either end leaves it as it is. */
  lemma StripOfStripped(s: string)
    requires Stripped(s)
    ensures Strip(s) == s
  {
    if |s| > 0 {
      StripOfPadded(s, 0, |s|);
    }
  }

  /** A leading whitespace character does not survive stripping. */
  lemma StripLeadingSpace(c: char, t: string)
    requires IsSpace(c)
    ensures Strip([c] + t) == Strip(t)
  {
    if |Strip(t)| > 0 {
      StripLeadingSpaceText(c, t);
    } else {
      StripEmptyIffAllSpace(t);
      assert AllSpace([c] + t);
      StripEmptyIffAllSpace([c] + t);
    }
  }

  /** The same when `t` holds more than whitespace. */
  lemma StripLeadingSpaceText(c: char, t: string)
    requires IsSpace(c) && |Strip(t)| > 0
    ensures Strip([c] + t) == Strip(t)
  {
    var lo := StripAt(t);
    var hi := lo + |Strip(t)|;
    assert t[lo] == Strip(t)[0] && t[hi - 1] == Strip(t)[|Strip(t)| - 1];
    ConsPadded(c, t, lo, hi);
    StripOfPadded([c] + t, lo + 1, hi + 1);
  }

  /** Whitespace in front of padded text only moves it one place on. */
  lemma ConsPadded(c: char, t: string, lo: nat, hi: nat)
    requires IsSpace(c) && lo < hi <= |t|
    requires AllSpace(t[..lo]) && AllSpace(t[hi..])
    ensures var s := [c] + t;
            && AllSpace(s[..lo + 1]) && AllSpace(s[hi + 1..])
            && s[lo + 1] == t[lo] && s[hi] == t[hi - 1]
            && s[lo + 1..hi + 1] == t[lo..hi]
  {
    var s := [c] + t;
    assert s[..lo + 1] == [c] + t[..lo];
    assert s[hi + 1..] == t[hi..];
    assert s[lo + 1..hi + 1] == t[lo..hi];
  }

  /** A string is blank for `len(line.strip()) == 0` exactly when it is all whitespace. */
  lemma StripEmptyIffAllSpace(s: string)
    ensures |Strip(s)| == 0 <==> AllSpace(s)
  {
    SpaceRunSpans(s, 0);
    SpaceRunBackSpans(s, |s|);
  }

  /** `s.rstrip(ch)`: the longest prefix of `s` that does not end with `ch`. */
  function RStripChar(s: string, ch: char): (r: string)
    ensures |r| <= |s| && r == s[..|r|]
    ensures forall i :: |r| <= i < |s| ==> s[i] == ch
    ensures |r| > 0 ==> r[|r| - 1] != ch
  {
    if |s| > 0 && s[|s| - 1] == ch then RStripChar(s[..|s| - 1], ch) else s
  }

  /** Number of occurrences of `d` in `s`. */
  function Count(s: string, d: char): nat
  {
    if |s| == 0 then 0 else (if s[0] == d then 1 else 0) + Count(s[1..], d)
  }

  /** `s.split(d)` for a one-character separator: the pieces between separators,
      one more piece than there are separators, none containing the separator,
      and joined back with the separator they give `s` again. */
  function Split(s: string, d: char): (r: seq<string>)
    ensures |r| == Count(s, d) + 1
    ensures forall i :: 0 <= i < |r| ==> d !in r[i]
    ensures Join(r, d) == s
  {
    if |s| == 0 then [""]
    else
      var rest := Split(s[1..], d);
      if s[0] == d then
        JoinEmptyFirst(rest, d);
        assert s == [d] + s[1..];
        [""] + rest
      else
        JoinGlue([s[0]], rest, d);
        assert s == [s[0]] + s[1..];
        [[s[0]] + rest[0]] + rest[1..]
  }

  /** `d.join(parts)`: the inverse of `Split`. */
  function Join(parts: seq<string>, d: char): string
  {
    if |parts| == 0 then ""
    else if |parts| == 1 then parts[0]
    else parts[0] + [d] + Join(parts[1..], d)
  }

  /** Splitting loses nothing: joining the pieces back gives the original string. */
  lemma {:induction false} JoinSplit(s: string, d: char)
    ensures Join(Split(s, d), d) == s
  {
    if |s| > 0 {
      var rest := Split(s[1..], d);
      JoinSplit(s[1..], d);
      if s[0] == d {
        JoinEmptyFirst(rest, d);
        assert s == [d] + s[1..];
      } else {
        JoinGlue([s[0]], rest, d);
        assert s == [s[0]] + s[1..];
      }
    }
  }

  /** A leading empty piece contributes only its separator. */
  lemma JoinEmptyFirst(parts: seq<string>, d: char)
    requires |parts| > 0
    ensures Join([""] + parts, d) == [d] + Join(parts, d)
  {
    assert ([""] + parts)[1..] == parts;
  }

  /** Text glued to the front of the first piece comes out in front. */
  lemma JoinGlue(x: string, parts: seq<string>, d: char)
    requires |parts| > 0
    ensures Join([x + parts[0]] + parts[1..], d) == x + Join(parts, d)
  {
    var p := [x + parts[0]] + parts[1..];
    if |parts| > 1 {
      assert p[1..] == parts[1..];
    }
  }

  /** Joining pieces that do not contain the separator and splitting again gives
      the same pieces back. */
  lemma {:induction false} SplitJoin(parts: seq<string>, d: char)
    requires |parts| > 0
    requires forall i :: 0 <= i < |parts| ==> d !in parts[i]
    ensures Split(Join(parts, d), d) == parts
  {
    if |parts| == 1 {
      SplitNoSeparator(parts[0], d);
    } else {
      SplitJoin(parts[1..], d);
      SplitPrefix(parts[0], Join(parts[1..], d), d);
      assert parts == [parts[0]] + parts[1..];
    }
  }

  /** A string without the separator splits into itself. */
  lemma {:induction false} SplitNoSeparator(s: string, d: char)
    requires d !in s
    ensures Split(s, d) == [s]
  {
    if |s| > 0 {
      SplitNoSeparator(s[1..], d);
      assert s == [s[0]] + s[1..];
    }
  }

  /** Splitting `a + [d] + b` where `a` has no separator gives `a` followed by the pieces of `b`. */
  lemma {:induction false} SplitPrefix(a: string, b: string, d: char)
    requires d !in a
    ensures Split(a + [d] + b, d) == [a] + Split(b, d)
  {
    if |a| == 0 {
      assert a + [d] + b == [d] + b;
      assert ([d] + b)[1..] == b;
    } else {
      SplitPrefix(a[1..], b, d);
      assert (a + [d] + b)[1..] == a[1..] + [d] + b;
      assert a == [a[0]] + a[1..];
    }
  }

  /** `needle` occurs at position `i` of `hay`. */
  predicate OccursAt(needle: string, hay: string, i: nat)
  {
    i + |needle| <= |hay| && hay[i..i + |needle|] == needle
  }

  /** Python's `needle in hay` and JavaScript's `hay.indexOf(needle) != -1`. */
  predicate IsSubstring(needle: string, hay: string)
    decreases |hay|
  {
    needle <= hay || (|hay| > 0 && IsSubstring(needle, hay[1..]))
  }

  /** A needle only occurs in a hay at least as long. */
  lemma {:induction false} SubstringNoLonger(needle: string, hay: string)
    ensures IsSubstring(needle, hay) ==> |needle| <= |hay|
    decreases |hay|
  {
    if |hay| > 0 {
      SubstringNoLonger(needle, hay[1..]);
    }
  }

  /** The recursive test agrees with the positional definition. */
  lemma {:induction false} IsSubstringIff(needle: string, hay: string)
    ensures IsSubstring(needle, hay) <==> exists i: nat :: OccursAt(needle, hay, i)
    decreases |hay|
  {
    if |hay| > 0 {
      IsSubstringIff(needle, hay[1..]);
    }
    if IsSubstring(needle, hay) {
      if needle <= hay {
        assert OccursAt(needle, hay, 0) by { assert hay[0..|needle|] == hay[..|needle|]; }
      } else {
        var i: nat :| OccursAt(needle, hay[1..], i);
        OccursShift(needle, hay, i);
      }
    }
    if exists i: nat :: OccursAt(needle, hay, i) {
      var i: nat :| OccursAt(needle, hay, i);
      if i == 0 {
        assert hay[0..|needle|] == hay[..|needle|];
      } else {
        OccursShift(needle, hay, i - 1);
      }
    }
  }

  /** An occurrence at `i` in the tail is an occurrence at `i + 1` in the whole. */
  lemma OccursShift(needle: string, hay: string, i: nat)
    requires |hay| > 0
    ensures OccursAt(needle, hay[1..], i) <==> OccursAt(needle, hay, i + 1)
  {
    if i + |needle| <= |hay[1..]| {
      assert hay[1..][i..i + |needle|] == hay[i + 1..i + 1 + |needle|];
    }
  }

  /** ASCII upper-casing of one character. */
  function UpperChar(c: char): (r: char)
    ensures 'a' <= c <= 'z' ==> 'A' <= r <= 'Z' && r as int - c as int == 'A' as int - 'a' as int
    ensures !('a' <= c <= 'z') ==> r == c
  {
    if 'a' <= c <= 'z' then (c as int - 'a' as int + 'A' as int) as char else c
  }

  /** `s.upper()` restricted to ASCII letters. */
  function Upper(s: string): (r: string)
    ensures |r| == |s|
    ensures forall i :: 0 <= i < |s| ==> r[i] == UpperChar(s[i])
  {
    if |s| == 0 then "" else [UpperChar(s[0])] + Upper(s[1..])
  }
}
