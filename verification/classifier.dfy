/** The line classifier `_parse_line`: an ordered table of (key, recognizer)
    pairs searched in declared order, where the first recognizer that matches
    decides the key, plus the accumulation of element-header fields in the parse
    context and the promotion of a header line to `element`. The recognizers are
    the regular expressions of the source, left abstract: each maps a line to the
    named groups of its match, or to `None`. */
module Classifier {
  import opened Wrappers
  import opened Pool

  /** The named groups of one regex match. */
  type Captures = map<string, string>

  /** `match.group(name)`; every group the parser reads is defined by its pattern,
      and a group missing from the map reads as the empty string. */
  function Cap(m: Captures, name: string): string
  {
    if name in m then m[name] else ""
  }

  /** One entry of the dispatch table. */
  datatype Pattern = Pattern(key: string, recognize: string -> Option<Captures>)

  /** The keys `_parse_line` reports, as a datatype: `KOther` carries any key
      that is none of the named ones (such as an unrenamed table key). */
  datatype Key =
    | KElement | KData | KSubelement | KGroup | KQuestion
    | KRemoved | KRemoved2 | KEnd | KBlank
    | KOther(name: string)

  /** The key whose Python spelling is `name`. */
  function KeyOf(name: string): (k: Key)
    ensures k.KOther? ==> k.name == name
  {
    if name == "element" then KElement
    else if name == "data" then KData
    else if name == "subelement" then KSubelement
    else if name == "group" then KGroup
    else if name == "question" then KQuestion
    else if name == "removed" then KRemoved
    else if name == "removed2" then KRemoved2
    else if name == "end" then KEnd
    else if name == "blank" then KBlank
    else KOther(name)
  }

  /** The names of the thirteen regexes, in the order the table declares them. */
  const PatternNames: seq<string> :=
    ["element_onel", "el_name", "el_effective", "el_eff_short", "el_num",
     "subelement", "subelement2", "group", "question", "removed", "removed2",
     "end", "blank"]

  /** The triple-quoted example text written in front of the first entry. */
  const TableDocstring: string :=
    "\n    Examples:\n        subelement\n            element 4 SUBELEMENT E1 - COMMISSION RULES [6 Exam Questions - 6 Groups]\n    "

  /** The keys as the table literally has them: Python joins the docstring and
      the adjacent literal 'element_onel' into one string, so the first key is
      their concatenation; the other twelve are the pattern names. */
  const AsWrittenKeys: seq<string> := [TableDocstring + "element_onel"] + PatternNames[1..]

  /** A recognizer for each pattern name: the search of that regex. */
  type Recognizers = string -> string -> Option<Captures>

  /** The dispatch table pairing `keys` with the recognizers in declared order. */
  function TableOf(keys: seq<string>, rx: Recognizers): (t: seq<Pattern>)
    requires |keys| == |PatternNames|
    ensures |t| == |PatternNames|
    ensures forall i :: 0 <= i < |t| ==> t[i] == Pattern(keys[i], rx(PatternNames[i]))
  {
    seq(|keys|, i requires 0 <= i < |keys| => Pattern(keys[i], rx(PatternNames[i])))
  }

  /** The table as the source builds it. */
  function AsWrittenTable(rx: Recognizers): seq<Pattern>
  {
    TableOf(AsWrittenKeys, rx)
  }

  /** The table the code evidently intends, with the first key 'element_onel'. */
  function CorrectedTable(rx: Recognizers): seq<Pattern>
  {
    TableOf(PatternNames, rx)
  }

  /** The header fields the parse context accumulates: `el_name`, `el_yrvalid`,
      `el_effective` (`None` while still `''`) and `el_num`. */
  datatype Header = Header(elName: string, elYrValid: Option<Range>,
                           elEffective: Option<Range>, elNum: string)

  const EmptyHeader := Header("", None, None, "")

  /** What `_parse_line` returns (key and match), with the context's header
      fields as the call leaves them. `key == None` is Python's `None`. */
  datatype Classified = Classified(key: Option<Key>, captures: Captures, header: Header)

  /** Index of the first pattern at or after `from` whose recognizer matches. */
  function FirstMatch(table: seq<Pattern>, line: string, from: nat): (r: Option<nat>)
    ensures r.Some? ==> from <= r.value < |table| && table[r.value].recognize(line).Some?
    ensures r.Some? ==> forall j :: from <= j < r.value ==> table[j].recognize(line).None?
    ensures r.None? ==> forall j :: from <= j < |table| ==> table[j].recognize(line).None?
    decreases |table| - from
  {
    if from >= |table| then None
    else if table[from].recognize(line).Some? then Some(from)
    else FirstMatch(table, line, from + 1)
  }

  /** The key a matched pattern is reported under, given the header fields
      recorded before the line: header pieces report `data`, an effective-date
      line reports `element` once an element number is known, the one-line
      header reports `element`, and `subelement2` reports `subelement`. */
  function ReportedKey(key: string, h: Header): Key
  {
    if key == "element_onel" then KElement
    else if key == "el_name" || key == "el_num" then KData
    else if key == "el_effective" || key == "el_eff_short" then
      (if |h.elNum| > 0 then KElement else KData)
    else if key == "subelement2" then KSubelement
    else KeyOf(key)
  }

  /** The chain of `if key == …` tests after a match: records the header fields
      the matched pattern captures and renames the key. */
  function Promote(key: string, m: Captures, h: Header): (r: (Key, Header))
    ensures r.0 == ReportedKey(key, h)
    ensures key == "element_onel" ==> r.0 == KElement
    ensures key == "el_name" || key == "el_num" ==> r.0 == KData
    ensures key == "el_effective" || key == "el_eff_short" ==>
              (r.0 == KElement <==> |h.elNum| > 0) && (r.0 == KElement || r.0 == KData)
    ensures key == "subelement2" ==> r.0 == KSubelement
    ensures r.0 != KElement && r.0 != KData ==> r.1 == h
    ensures (key != "element_onel" && key != "el_name" && key != "el_effective" &&
             key != "el_eff_short" && key != "el_num") ==> r.1 == h
    ensures key == "el_name" ==> r.1 == h.(elName := Cap(m, "elname"),
                                           elYrValid := Some(Range(Cap(m, "yrbegin"), Cap(m, "yrend"))))
    ensures key == "el_effective" ==> r.1 == h.(elEffective := Some(Range(Cap(m, "begin"), Cap(m, "end"))))
    ensures key == "el_eff_short" ==> r.1 == h.(elEffective := Some(Range(Cap(m, "begin"), "")))
    ensures key == "el_num" ==> r.1 == h.(elNum := Cap(m, "elnum"))
    ensures key == "element_onel" ==>
              r.1 == Header(Cap(m, "elname"), Some(Range(Cap(m, "begin"), Cap(m, "end"))),
                            Some(Range(Cap(m, "effbegin"), "")), Cap(m, "elnum"))
  {
    var k := ReportedKey(key, h);
    if key == "element_onel" then
      (k, Header(Cap(m, "elname"), Some(Range(Cap(m, "begin"), Cap(m, "end"))),
                 Some(Range(Cap(m, "effbegin"), "")), Cap(m, "elnum")))
    else if key == "el_name" then
      (k, h.(elName := Cap(m, "elname"),
             elYrValid := Some(Range(Cap(m, "yrbegin"), Cap(m, "yrend")))))
    else if key == "el_effective" then
      (k, h.(elEffective := Some(Range(Cap(m, "begin"), Cap(m, "end")))))
    else if key == "el_eff_short" then
      (k, h.(elEffective := Some(Range(Cap(m, "begin"), ""))))
    else if key == "el_num" then
      (k, h.(elNum := Cap(m, "elnum")))
    else
      (k, h)
  }

  /** `_parse_line(line, pool_state)`. */
  function ParseLine(line: string, h: Header, table: seq<Pattern>): (c: Classified)
    ensures |line| == 0 ==> c == Classified(Some(KEnd), map[], h)
    ensures |line| > 0 ==>
              (c.key.None? <==> forall j :: 0 <= j < |table| ==> table[j].recognize(line).None?)
    ensures c.key.None? ==> c.header == h
    ensures c.key != Some(KElement) && c.key != Some(KData) ==> c.header == h
    ensures |line| > 0 && c.key.Some? ==>
              exists i :: 0 <= i < |table| && table[i].recognize(line).Some?
                && (forall j :: 0 <= j < i ==> table[j].recognize(line).None?)
                && c.captures == table[i].recognize(line).value
                && c.key == Some(ReportedKey(table[i].key, h))
  {
    if |line| == 0 then Classified(Some(KEnd), map[], h)
    else
      match FirstMatch(table, line, 0)
      case None => Classified(None, map[], h)
      case Some(i) =>
        var m := table[i].recognize(line).value;
        var (key, h') := Promote(table[i].key, m, h);
        Classified(Some(key), m, h')
  }

  /** First match wins: when pattern `i` is the first that recognises a non-empty
      line, the line is reported under pattern `i`'s key and with its captures. */
  lemma FirstMatchWins(line: string, h: Header, table: seq<Pattern>, i: nat)
    requires |line| > 0 && i < |table| && table[i].recognize(line).Some?
    requires forall j :: 0 <= j < i ==> table[j].recognize(line).None?
    ensures ParseLine(line, h, table).key == Some(ReportedKey(table[i].key, h))
    ensures ParseLine(line, h, table).captures == table[i].recognize(line).value
    ensures ParseLine(line, h, table).header == Promote(table[i].key, table[i].recognize(line).value, h).1
  {
    var r := FirstMatch(table, line, 0);
    assert r == Some(i);
  }

  /** The first key as written is the docstring followed by 'element_onel', so no
      key of the table equals 'element_onel'; the other keys are the pattern names. */
  lemma AsWrittenKeysFacts()
    ensures |AsWrittenKeys| == |PatternNames|
    ensures AsWrittenKeys[0] == TableDocstring + PatternNames[0]
    ensures "element_onel" !in AsWrittenKeys
    ensures forall i :: 1 <= i < |PatternNames| ==> AsWrittenKeys[i] == PatternNames[i]
  {
    assert |TableDocstring + "element_onel"| > |"element_onel"|;
  }
}
