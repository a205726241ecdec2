/** The parse state machine `get_element_pool`: a parse context (state, the open
    element, subelement and group, and the header fields gathered so far), the
    two close operations, one step of the main loop (read a line, classify it,
    act on the (state, key) pair) and the loop itself. */
module Parser {
  import opened Wrappers
  import opened Text
  import opened Diagnostics
  import opened Pool
  import opened LineSource
  import opened Classifier
  import opened Figure

  datatype PState = Initial | ElementState | SubelementState | GroupState | End

  /** The parse context `State`: the current state, the open element, subelement
      and group, and the accumulated header fields. */
  datatype Context = Context(state: PState, curElement: Option<Element>,
                             curSubelement: Option<Subelement>, curGroup: Option<Group>,
                             header: Header)

  /** `State('initial', None, None, None)`. */
  const InitialContext := Context(Initial, None, None, None, EmptyHeader)

  /** The source file's name and the type `get_file_type` reports for it. */
  datatype Source = Source(filename: string, filetype: string)

  // ---------------------------------------------------------------------------
  // Well-formedness of the tree and of the context

  /** Every question is built with four answers and no topics. */
  predicate QuestionWf(q: Question)
  {
    |q.answers| == 4 && q.topics == []
  }

  predicate GroupWf(g: Group)
  {
    TopicsConsistent(g) && forall k :: 0 <= k < |g.questions| ==> QuestionWf(g.questions[k])
  }

  /** A subelement of element `elem` whose groups are well formed. */
  predicate SubelementWf(s: Subelement, elem: string)
  {
    s.elem == elem && forall k :: 0 <= k < |s.groups| ==> GroupWf(s.groups[k])
  }

  predicate ElementWf(e: Element)
  {
    forall k :: 0 <= k < |e.subelements| ==> SubelementWf(e.subelements[k], e.elem)
  }

  /** An open group has an open subelement, an open subelement has an element,
      and the open and closed parts of the tree are well formed. */
  predicate TreeWf(c: Context)
  {
    && (c.curGroup.Some? ==> c.curSubelement.Some?)
    && (c.curSubelement.Some? ==> c.curElement.Some?)
    && (c.curElement.Some? ==> ElementWf(c.curElement.value))
    && (c.curSubelement.Some? ==> SubelementWf(c.curSubelement.value, c.curElement.value.elem))
    && (c.curGroup.Some? ==> GroupWf(c.curGroup.value))
  }

  /** What each state guarantees to be open. */
  predicate StateShape(c: Context)
  {
    && (c.state == Initial ==> c.curElement.None?)
    && (c.state == ElementState ==> c.curElement.Some? && c.curSubelement.None?)
    && (c.state == SubelementState ==> c.curSubelement.Some? && c.curGroup.None?)
    && (c.state == GroupState ==> c.curGroup.Some?)
  }

  predicate Wf(c: Context)
  {
    TreeWf(c) && StateShape(c)
  }

  /** Moving to `end` keeps a context well formed: that state promises no
      open part. */
  lemma EndKeepsWf(c: Context)
    requires TreeWf(c)
    ensures Wf(c.(state := End))
  {
  }

  /** Opening a subelement of the open element, with no group open, keeps a
      context well formed. */
  lemma OpenSubelementKeepsWf(c: Context, s: Subelement)
    requires TreeWf(c) && c.curElement.Some? && c.curGroup.None?
    requires SubelementWf(s, c.curElement.value.elem)
    ensures Wf(c.(state := SubelementState, curSubelement := Some(s)))
  {
  }

  // ---------------------------------------------------------------------------
  // The close operations

  /** `close_group`: an open group is appended to the open subelement's groups
      and no group is open any more; with no open group nothing changes. The
      source requires an open subelement whenever a group is open. */
  function CloseGroup(c: Context): (r: Context)
    requires c.curGroup.Some? ==> c.curSubelement.Some?
    ensures c.curGroup.None? ==> r == c
    ensures r.curGroup.None?
    ensures TreeWf(c) ==> TreeWf(r)
    ensures r.state == c.state && r.curElement == c.curElement && r.header == c.header
    ensures c.curGroup.Some? ==>
              r.curSubelement == Some(c.curSubelement.value.(groups := c.curSubelement.value.groups + [c.curGroup.value]))
  {
    if c.curGroup.Some? then
      var s := c.curSubelement.value;
      c.(curSubelement := Some(s.(groups := s.groups + [c.curGroup.value])), curGroup := None)
    else c
  }

  /** `close_subelement`: an open subelement is appended to the element's
      subelements and no subelement is open any more; with none open nothing
      changes. The source requires an open element whenever a subelement is open. */
  function CloseSubelement(c: Context): (r: Context)
    requires c.curSubelement.Some? ==> c.curElement.Some?
    ensures c.curSubelement.None? ==> r == c
    ensures r.curSubelement.None?
    ensures TreeWf(c) && c.curGroup.None? ==> TreeWf(r)
    ensures r.state == c.state && r.curGroup == c.curGroup && r.header == c.header
    ensures c.curSubelement.Some? ==>
              r.curElement == Some(c.curElement.value.(subelements := c.curElement.value.subelements + [c.curSubelement.value]))
  {
    if c.curSubelement.Some? then
      var e := c.curElement.value;
      c.(curElement := Some(e.(subelements := e.subelements + [c.curSubelement.value])), curSubelement := None)
    else c
  }

  // ---------------------------------------------------------------------------
  // Question assembly

  /** Whitespace, or the dash that `rstrip('-')` removes. */
  predicate SpaceOrDash(c: char)
  {
    IsSpace(c) || c == '-'
  }

  /** `r` is the slice of `d` at `lo`, with only whitespace before it and only
      whitespace and dashes after it. */
  predicate TrimmedAt(d: string, r: string, lo: nat)
  {
    && lo + |r| <= |d| && d[lo..lo + |r|] == r
    && AllSpace(d[..lo])
    && forall k :: lo + |r| <= k < |d| ==> SpaceOrDash(d[k])
  }

  /** `description.strip().rstrip('-').strip()`: a piece of the description cut
      out of it, with whitespace removed in front and whitespace and trailing
      dashes removed behind, and no whitespace left at either end. */
  function TrimDescription(d: string): (r: string)
    ensures Stripped(r) && |r| <= |d|
    ensures exists lo: nat :: TrimmedAt(d, r, lo)
    ensures exists n: nat :: DashesCutAt(Strip(d), r, n)
  {
    TrimDescriptionSlice(d);
    TrimDescriptionCut(d);
    Strip(RStripChar(Strip(d), '-'))
  }

  /** `r` is what remains of the stripped description `t` once its whole
      trailing run of dashes, which ends at `n`, is cut and the rest is
      stripped again. */
  predicate DashesCutAt(t: string, r: string, n: nat)
  {
    && n <= |t| && r == Strip(t[..n])
    && (forall i :: n <= i < |t| ==> t[i] == '-')
    && (n == 0 || t[n - 1] != '-')
  }

  /** `rstrip('-')` cuts exactly the trailing run of dashes of the stripped
      description. */
  lemma TrimDescriptionCut(d: string)
    ensures exists n: nat :: DashesCutAt(Strip(d), Strip(RStripChar(Strip(d), '-')), n)
  {
    var t := Strip(d);
    var m := RStripChar(t, '-');
    assert t[..|m|] == m;
    assert DashesCutAt(t, Strip(m), |m|);
  }

  /** The three trimming steps compose into one slice: the offset of the
      result is the first strip's offset plus the second's. */
  lemma TrimDescriptionSlice(d: string)
    ensures exists lo: nat :: TrimmedAt(d, Strip(RStripChar(Strip(d), '-')), lo)
  {
    var lo := TrimDescriptionAt(d, Strip(d), RStripChar(Strip(d), '-'));
  }

  /** Where the trimmed description starts, given the first strip `t` and the
      cut of its trailing dashes `m`. */
  lemma TrimDescriptionAt(d: string, t: string, m: string) returns (lo: nat)
    requires t == Strip(d) && m == RStripChar(t, '-')
    ensures TrimmedAt(d, Strip(m), lo)
  {
    var lo1 := StripAt(d);
    var lo2 := StripAt(m);
    ComposeTrims(d, t, m, Strip(m), lo1, lo2);
    lo := lo1 + lo2;
  }

  /** A strip at `lo1`, a cut of trailing dashes, and a strip at `lo2` make
      one trimmed slice at `lo1 + lo2`. */
  lemma ComposeTrims(d: string, t: string, m: string, r: string, lo1: nat, lo2: nat)
    requires lo1 + |t| <= |d| && d[lo1..lo1 + |t|] == t
    requires AllSpace(d[..lo1]) && AllSpace(d[lo1 + |t|..])
    requires |m| <= |t| && m == t[..|m|] && forall i :: |m| <= i < |t| ==> t[i] == '-'
    requires lo2 + |r| <= |m| && m[lo2..lo2 + |r|] == r
    requires AllSpace(m[..lo2]) && AllSpace(m[lo2 + |r|..])
    ensures TrimmedAt(d, r, lo1 + lo2)
  {
    SliceAt(d, t, lo1);
    SliceAt(m, r, lo2);
    TrimmedInside(d, t, m, r, lo1, lo2);
    TrimmedFront(d, t, m, lo1, lo2);
    TrimmedBack(d, t, m, r, lo1, lo2);
  }

  /** A slice, character by character. */
  lemma SliceAt(s: string, t: string, lo: nat)
    requires lo + |t| <= |s| && s[lo..lo + |t|] == t
    ensures forall i :: 0 <= i < |t| ==> s[lo + i] == t[i]
  {
    forall i | 0 <= i < |t|
      ensures s[lo + i] == t[i]
    {
      assert s[lo..lo + |t|][i] == s[lo + i];
    }
  }

  /** The result sits at the sum of the two offsets. */
  lemma TrimmedInside(d: string, t: string, m: string, r: string, lo1: nat, lo2: nat)
    requires lo1 + |t| <= |d| && forall i :: 0 <= i < |t| ==> d[lo1 + i] == t[i]
    requires |m| <= |t| && m == t[..|m|]
    requires lo2 + |r| <= |m| && forall i :: 0 <= i < |r| ==> m[lo2 + i] == r[i]
    ensures lo1 + lo2 + |r| <= |d| && d[lo1 + lo2..lo1 + lo2 + |r|] == r
  {
    forall i | 0 <= i < |r|
      ensures d[lo1 + lo2 + i] == r[i]
    {
      assert m[lo2 + i] == t[lo2 + i];
    }
  }

  /** Before the result: whitespace the first strip removed, then whitespace
      the last strip removed. */
  lemma TrimmedFront(d: string, t: string, m: string, lo1: nat, lo2: nat)
    requires lo1 + |t| <= |d| && forall i :: 0 <= i < |t| ==> d[lo1 + i] == t[i]
    requires AllSpace(d[..lo1])
    requires |m| <= |t| && m == t[..|m|]
    requires lo2 <= |m| && AllSpace(m[..lo2])
    ensures AllSpace(d[..lo1 + lo2])
  {
    forall k | 0 <= k < lo1 + lo2
      ensures IsSpace(d[k])
    {
      if k < lo1 {
        assert d[..lo1][k] == d[k];
      } else {
        assert d[k] == t[k - lo1] == m[k - lo1] == m[..lo2][k - lo1];
      }
    }
  }

  /** After the result: whitespace the last strip removed, then the dashes,
      then whitespace the first strip removed. */
  lemma TrimmedBack(d: string, t: string, m: string, r: string, lo1: nat, lo2: nat)
    requires lo1 + |t| <= |d| && forall i :: 0 <= i < |t| ==> d[lo1 + i] == t[i]
    requires AllSpace(d[lo1 + |t|..])
    requires |m| <= |t| && m == t[..|m|] && forall i :: |m| <= i < |t| ==> t[i] == '-'
    requires lo2 + |r| <= |m| && AllSpace(m[lo2 + |r|..])
    ensures forall k :: lo1 + lo2 + |r| <= k < |d| ==> SpaceOrDash(d[k])
  {
    forall k | lo1 + lo2 + |r| <= k < |d|
      ensures SpaceOrDash(d[k])
    {
      if k < lo1 + |m| {
        assert d[k] == t[k - lo1] == m[k - lo1] == m[lo2 + |r|..][k - lo1 - lo2 - |r|];
      } else if k < lo1 + |t| {
        assert d[k] == t[k - lo1];
      } else {
        assert d[lo1 + |t|..][k - lo1 - |t|] == d[k];
      }
    }
  }

  /** The Subelement a subelement header opens inside element `e`: its id, the
      trimmed description and the announced question and group counts come from
      the header; it has no groups yet. */
  function HeaderSubelement(e: Element, m: Captures): (s: Subelement)
    ensures SubelementWf(s, e.elem) && s.groups == []
    ensures s.subEl == Cap(m, "subelement") && s.description == TrimDescription(Cap(m, "description"))
    ensures s.numq == Cap(m, "numq") && s.numg == Cap(m, "numg")
  {
    Subelement(e.elem, Cap(m, "subelement"), TrimDescription(Cap(m, "description")),
               Cap(m, "numq"), Cap(m, "numg"), [])
  }

  /** The Group a group header opens, with the description as given. */
  function HeaderGroup(m: Captures, description: string): (g: Group)
    ensures GroupWf(g) && g.questions == [] && g.description == description
    ensures g.subelement == Cap(m, "subelem") && g.groupId == Cap(m, "group_id")
  {
    NewGroup(Cap(m, "subelem"), Cap(m, "group_id"), description, [])
  }

  /** `cur_group.questions.append(question)`. */
  function AppendQuestion(g: Group, q: Question): (r: Group)
    requires GroupWf(g) && QuestionWf(q)
    ensures GroupWf(r) && r.questions == g.questions + [q]
    ensures r.(questions := g.questions) == g
  {
    g.(questions := g.questions + [q])
  }

  /** The six reads that follow a question header: the body, the four answers
      (all skipping blank lines) and the terminator (not skipping them). */
  datatype QuestionBlock = QuestionBlock(body: ReadResult, ansA: ReadResult, ansB: ReadResult,
                                         ansC: ReadResult, ansD: ReadResult, term: ReadResult)

  function QuestionReads(f: Filelines): (b: QuestionBlock)
    ensures b.body == ReadLine(f, true)
    ensures b.ansA == ReadLine(b.body.rest, true) && b.ansB == ReadLine(b.ansA.rest, true)
    ensures b.ansC == ReadLine(b.ansB.rest, true) && b.ansD == ReadLine(b.ansC.rest, true)
    ensures b.term == ReadLine(b.ansD.rest, false)
    ensures b.term.rest.lines == f.lines && Remaining(b.term.rest) <= Remaining(f)
  {
    var t := ReadLine(f, true);
    var a := ReadLine(t.rest, true);
    var b := ReadLine(a.rest, true);
    var c := ReadLine(b.rest, true);
    var d := ReadLine(c.rest, true);
    var e := ReadLine(d.rest, false);
    QuestionBlock(t, a, b, c, d, e)
  }

  /** `line.strip() == '~~'`: the line that closes a question block, which is
      exactly two tildes with nothing but whitespace around them. */
  function IsTerminator(line: string): (b: bool)
    ensures b <==> exists lo: nat :: PaddedTildesAt(line, lo)
  {
    TerminatorIff(line);
    var t := Strip(line);
    |t| == 2 && t[0] == '~' && t[1] == '~'
  }

  /** `~~` at `lo`, with only whitespace before and after. */
  predicate PaddedTildesAt(line: string, lo: nat)
  {
    && lo + 2 <= |line| && line[lo] == '~' && line[lo + 1] == '~'
    && AllSpace(line[..lo]) && AllSpace(line[lo + 2..])
  }

  lemma TerminatorIff(line: string)
    ensures (var t := Strip(line); |t| == 2 && t[0] == '~' && t[1] == '~')
            <==> exists lo: nat :: PaddedTildesAt(line, lo)
  {
    var t := Strip(line);
    if |t| == 2 && t[0] == '~' && t[1] == '~' {
      var lo := StripAt(line);
      assert line[lo] == line[lo..lo + 2][0];
      assert line[lo + 1] == line[lo..lo + 2][1];
      assert PaddedTildesAt(line, lo);
    }
    if exists lo: nat :: PaddedTildesAt(line, lo) {
      var lo: nat :| PaddedTildesAt(line, lo);
      StripOfPadded(line, lo, lo + 2);
    }
  }

  /** A question read from the lines after its header, the source positioned
      after the terminator, and the diagnostics logged meanwhile. */
  datatype QuestionRead = QuestionRead(q: Question, rest: Filelines, log: seq<Diag>)

  /** The question built from the header's captures and the six reads after
      it: the id parts, the correct letter and the citation come from the
      header, the text and the figure from the body, the four answers stripped,
      and a terminator other than `~~` is logged as E005 (the question is kept
      anyway). */
  function BuildQuestion(m: Captures, b: QuestionBlock, topics: seq<string>): (r: QuestionRead)
    ensures r.q.qid == Cap(m, "subelem") + Cap(m, "group") + Cap(m, "qnum")
    ensures r.q.subelement == Cap(m, "subelem") && r.q.group == Cap(m, "group") && r.q.num == Cap(m, "qnum")
    ensures r.q.correct == Cap(m, "ans") && r.q.fcc == Cap(m, "fcc")
    ensures r.q.text == Strip(b.body.line) && r.q.figure == FindFigure(b.body.line)
    ensures r.q.answers == [Strip(b.ansA.line), Strip(b.ansB.line), Strip(b.ansC.line), Strip(b.ansD.line)]
    ensures QuestionWf(r.q)
    ensures r.rest == b.term.rest
    ensures r.log == [] <==> IsTerminator(b.term.line)
    ensures r.log != [] ==> r.log == [Diag("Error", "E005", b.term.num)]
  {
    var subelem, group, qnum := Cap(m, "subelem"), Cap(m, "group"), Cap(m, "qnum");
    var answers := [Strip(b.ansA.line), Strip(b.ansB.line), Strip(b.ansC.line), Strip(b.ansD.line)];
    var log := if !IsTerminator(b.term.line) then [Diag("Error", "E005", b.term.num)] else [];
    var q := NewQuestion(subelem, group, qnum, subelem + group + qnum, Strip(b.body.line),
                         Cap(m, "ans"), FindFigure(b.body.line), answers, Cap(m, "fcc"), topics);
    QuestionRead(q, b.term.rest, log)
  }

  /** The `question` case: read body, answers and terminator, then build. The
      text and figure come from the next meaningful line after the header, and
      the source ends up six reads further on: past the terminator, or at the
      end of the lines when they ran out first. */
  function ReadQuestion(m: Captures, f: Filelines, topics: seq<string>): (r: QuestionRead)
    ensures r.q.qid == Cap(m, "subelem") + Cap(m, "group") + Cap(m, "qnum")
    ensures r.q.text == Strip(ReadLine(f, true).line) && r.q.figure == FindFigure(ReadLine(f, true).line)
    ensures QuestionWf(r.q)
    ensures r.rest.lines == f.lines
    ensures Remaining(r.rest) + 6 <= Remaining(f) || Remaining(r.rest) == 0
    ensures Remaining(f) > 0 ==> Remaining(r.rest) < Remaining(f)
  {
    BuildQuestion(m, QuestionReads(f), topics)
  }

  // ---------------------------------------------------------------------------
  // One step of the main loop

  /** The context, the source and the diagnostics after one or more passes of
      the loop body. */
  datatype StepResult = StepResult(ctx: Context, rest: Filelines, log: seq<Diag>)

  /** Keys the loop passes over before looking at the state. */
  predicate Skipped(key: Option<Key>)
  {
    key == Some(KRemoved) || key == Some(KRemoved2) || key == Some(KBlank)
  }

  /** The context after one transition, and the diagnostics it logged. */
  datatype Transition = Transition(ctx: Context, log: seq<Diag>)

  /** `initial`: an element-ready line builds the Element from the header fields;
      an end is premature (E001); anything else is tolerated. */
  function StepInitial(c: Context, key: Option<Key>, num: int, src: Source): (t: Transition)
    requires c.state == Initial && Wf(c)
    ensures Wf(t.ctx)
    ensures t.ctx.header == c.header
    ensures key == Some(KElement) ==>
              t.ctx.state == ElementState && t.ctx.curElement == Some(Element(src.filename, src.filetype,
                c.header.elNum, c.header.elName, c.header.elYrValid, c.header.elEffective, []))
    ensures key == Some(KEnd) ==> t.ctx == c.(state := End) && t.log == [Diag("Error", "E001", num)]
    ensures key != Some(KElement) && key != Some(KEnd) ==> t.ctx == c
    ensures key == Some(KData) ==> t.log == [Diag("Info", "I002", num)]
    ensures key != Some(KElement) && key != Some(KEnd) && key != Some(KData) ==>
              t.log == [Diag("Info", "I001", num)]
  {
    if key == Some(KElement) then
      var h := c.header;
      Transition(c.(state := ElementState,
          curElement := Some(Element(src.filename, src.filetype, h.elNum, h.elName,
                                     h.elYrValid, h.elEffective, []))), [])
    else if key == Some(KEnd) then
      EndKeepsWf(c);
      Transition(c.(state := End), [Diag("Error", "E001", num)])
    else if key == Some(KData) then
      Transition(c, [Diag("Info", "I002", num)])
    else
      Transition(c, [Diag("Info", "I001", num)])
  }

  /** `element`: a subelement header opens the first Subelement; anything else
      ends the parse with an error. */
  function StepElement(c: Context, key: Option<Key>, m: Captures, num: int): (t: Transition)
    requires c.state == ElementState && Wf(c)
    ensures Wf(t.ctx)
    ensures t.ctx.header == c.header && t.ctx.curElement == c.curElement && t.ctx.curGroup == c.curGroup
    ensures key == Some(KSubelement) ==>
              t.ctx.state == SubelementState
              && t.ctx.curSubelement == Some(HeaderSubelement(c.curElement.value, m))
    ensures key != Some(KSubelement) ==> t.ctx == c.(state := End) && t.log != [] && t.log[0].msgType == "Error"
  {
    if key == Some(KSubelement) then
      var s := HeaderSubelement(c.curElement.value, m);
      OpenSubelementKeepsWf(c, s);
      Transition(c.(state := SubelementState, curSubelement := Some(s)), [])
    else
      var id := if key == Some(KEnd) then "E002" else "E003";
      EndKeepsWf(c);
      Transition(c.(state := End), [Diag("Error", id, num)])
  }

  /** `subelement`: a group header opens a Group with a trimmed description;
      anything else ends the parse with an error. */
  function StepSubelement(c: Context, key: Option<Key>, m: Captures, num: int): (t: Transition)
    requires c.state == SubelementState && Wf(c)
    ensures Wf(t.ctx)
    ensures t.ctx.header == c.header && t.ctx.curElement == c.curElement && t.ctx.curSubelement == c.curSubelement
    ensures key == Some(KGroup) ==>
              t.ctx.state == GroupState
              && t.ctx.curGroup == Some(HeaderGroup(m, TrimDescription(Cap(m, "description"))))
    ensures key != Some(KGroup) ==> t.ctx == c.(state := End) && t.log != [] && t.log[0].msgType == "Error"
  {
    if key == Some(KGroup) then
      var c1 := CloseGroup(c);
      Transition(c1.(state := GroupState, curGroup := Some(HeaderGroup(m, TrimDescription(Cap(m, "description"))))), [])
    else
      EndKeepsWf(c);
      if key == Some(KEnd) then Transition(c.(state := End), [Diag("Error", "E004", num)])
      else Transition(c.(state := End), [Diag("Error", "E007", num), Diag("Error", "D008", num)])
  }

  /** `group`: a sibling group header closes the open group and opens one whose
      description is kept untrimmed; a subelement header closes group and
      subelement and opens the new subelement; a question header appends one
      question to the open group; an end closes group and subelement and stops;
      anything else stops with an error, leaving the open group and subelement
      unattached. */
  function StepGroup(c: Context, key: Option<Key>, m: Captures, num: int, f: Filelines): (r: StepResult)
    requires c.state == GroupState && Wf(c)
    ensures Wf(r.ctx)
    ensures r.ctx.header == c.header
    ensures r.rest.lines == f.lines && Remaining(r.rest) <= Remaining(f)
    ensures key != Some(KQuestion) ==> r.rest == f
    ensures key == Some(KGroup) ==>
              r.ctx == CloseGroup(c).(curGroup := Some(HeaderGroup(m, Cap(m, "description"))))
    ensures key == Some(KSubelement) ==>
              r.ctx == CloseSubelement(CloseGroup(c)).(state := SubelementState,
                curSubelement := Some(HeaderSubelement(c.curElement.value, m)))
    ensures key == Some(KQuestion) ==>
              var qr := ReadQuestion(m, f, c.curGroup.value.topics);
              && r.ctx == c.(curGroup := Some(AppendQuestion(c.curGroup.value, qr.q)))
              && r.rest == qr.rest && r.log == [Diag("Info", "I002", num)] + qr.log
    ensures key == Some(KEnd) ==> r.ctx == CloseSubelement(CloseGroup(c)).(state := End)
    ensures key != Some(KGroup) && key != Some(KSubelement) && key != Some(KQuestion)
            && key != Some(KEnd) ==>
              r.ctx == c.(state := End) && r.log != [] && r.log[0] == Diag("Error", "E010", num)
  {
    if key == Some(KGroup) then
      var c1 := CloseGroup(c);
      StepResult(c1.(curGroup := Some(HeaderGroup(m, Cap(m, "description")))), f, [])
    else if key == Some(KSubelement) then
      var c1 := CloseSubelement(CloseGroup(c));
      StepResult(c1.(state := SubelementState, curSubelement := Some(HeaderSubelement(c.curElement.value, m))), f, [])
    else if key == Some(KQuestion) then
      var g := c.curGroup.value;
      var qr := ReadQuestion(m, f, g.topics);
      StepResult(c.(curGroup := Some(AppendQuestion(g, qr.q))), qr.rest,
                [Diag("Info", "I002", num)] + qr.log)
    else if key == Some(KEnd) then
      EndKeepsWf(CloseSubelement(CloseGroup(c)));
      StepResult(CloseSubelement(CloseGroup(c)).(state := End), f, [])
    else
      EndKeepsWf(c);
      StepResult(c.(state := End), f, [Diag("Error", "E010", num), Diag("Info", "I003", num)])
  }

  /** The `if`/`elif` chain on the state, for a line that is not skipped. Every
      state answers an end by moving to `end`; an open element stays open; and
      leaving `initial` without an element is the premature end E001. */
  function Dispatch(c: Context, key: Option<Key>, m: Captures, num: int, f: Filelines, src: Source): (r: StepResult)
    requires Wf(c)
    ensures Wf(r.ctx) && r.ctx.header == c.header
    ensures r.rest.lines == f.lines && Remaining(r.rest) <= Remaining(f)
    ensures key == Some(KEnd) ==> r.ctx.state == End
    ensures c.curElement.Some? ==> r.ctx.curElement.Some?
    ensures c.state == Initial && r.ctx.state != Initial && r.ctx.curElement.None? ==>
              r.log == [Diag("Error", "E001", num)]
  {
    match c.state
    case Initial =>
      var t := StepInitial(c, key, num, src); StepResult(t.ctx, f, t.log)
    case ElementState =>
      var t := StepElement(c, key, m, num); StepResult(t.ctx, f, t.log)
    case SubelementState =>
      var t := StepSubelement(c, key, m, num); StepResult(t.ctx, f, t.log)
    case GroupState =>
      StepGroup(c, key, m, num, f)
    case End =>
      StepResult(c, f, [])
  }

  /** The loop body once the line has been read and classified: record the
      header fields the line carries, pass over removed and blank-boundary
      lines, otherwise act on the (state, key) pair and log I004 when the state
      changed. */
  function Pass(c: Context, rl: ReadResult, cl: Classified, src: Source): (r: StepResult)
    requires Wf(c)
    ensures Wf(r.ctx) && r.ctx.header == cl.header
    ensures r.rest.lines == rl.rest.lines && Remaining(r.rest) <= Remaining(rl.rest)
    ensures Skipped(cl.key) ==> r == StepResult(c.(header := cl.header), rl.rest, [])
    ensures c.state != End && cl.key == Some(KEnd) ==> r.ctx.state == End
    ensures c.curElement.Some? ==> r.ctx.curElement.Some?
    ensures c.state == Initial && r.ctx.state != Initial && r.ctx.curElement.None? ==> Logged(r.log, "E001")
  {
    var c1 := c.(header := cl.header);
    if Skipped(cl.key) then
      StepResult(c1, rl.rest, [])
    else
      var g := Dispatch(c1, cl.key, cl.captures, rl.num, rl.rest, src);
      var trace := if g.ctx.state != c.state then [Diag("Info", "I004", rl.num)] else [];
      assert c.state == Initial && g.ctx.state != Initial && g.ctx.curElement.None? ==>
               (g.log + trace)[0].id == "E001";
      StepResult(g.ctx, g.rest, g.log + trace)
  }

  /** One pass of the loop body of `get_element_pool`: read the next meaningful
      line and classify it, then act on it. Every pass outside `end` consumes a
      line or moves to `end`. */
  function Step(c: Context, f: Filelines, table: seq<Pattern>, src: Source): (r: StepResult)
    requires Wf(c)
    ensures Wf(r.ctx)
    ensures r.rest.lines == f.lines && Remaining(r.rest) <= Remaining(f)
    ensures c.state != End ==> Remaining(r.rest) < Remaining(f) || r.ctx.state == End
    ensures c.curElement.Some? ==> r.ctx.curElement.Some?
    ensures c.state == Initial && r.ctx.state != Initial && r.ctx.curElement.None? ==> Logged(r.log, "E001")
  {
    var rl := ReadLine(f, true);
    Pass(c, rl, ParseLine(rl.line, c.header, table), src)
  }

  // ---------------------------------------------------------------------------
  // The main loop

  /** `while pool_state.state != 'end'`: steps until the state is `end`. It always
      terminates: every step consumes a line or, on the exhausted source, reads
      the empty sentinel, which every state answers by moving to `end`. */
  function Run(c: Context, f: Filelines, table: seq<Pattern>, src: Source): (r: StepResult)
    requires Wf(c)
    ensures Wf(r.ctx) && r.ctx.state == End
    ensures r.rest.lines == f.lines
    ensures c.curElement.Some? ==> r.ctx.curElement.Some?
    ensures c.state == Initial && r.ctx.curElement.None? ==> Logged(r.log, "E001")
    decreases Remaining(f), if c.state == End then 0 else 1
  {
    if c.state == End then StepResult(c, f, [])
    else
      var s := Step(c, f, table, src);
      var rest := Run(s.ctx, s.rest, table, src);
      LoggedConcat(s.log, rest.log, "E001");
      StepResult(rest.ctx, rest.rest, s.log + rest.log)
  }

  /** The outcome of a parse: the element (`None` when no header was ever
      recognised) and every diagnostic logged. */
  datatype PoolResult = PoolResult(element: Option<Element>, log: seq<Diag>)

  /** `get_element_pool`: parse the extracted lines of a source file. The result
      is a well-formed tree whenever an element was recognised, and the only way
      to get no element at all is the premature end E001. */
  function GetElementPool(lines: seq<string>, table: seq<Pattern>, src: Source): (r: PoolResult)
    ensures r.element.Some? ==> ElementWf(r.element.value)
    ensures r.element.None? ==> Logged(r.log, "E001")
  {
    var run := Run(InitialContext, NewFilelines(lines), table, src);
    PoolResult(run.ctx.curElement, run.log)
  }
}
