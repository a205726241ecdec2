/** Properties of the parse state machine: what one pass of the loop does with
    each kind of line, the questions gathered so far (which closing never loses
    and a question header extends by exactly one), and the one-line element
    header that the table as written never reports. */
module ParserProps {
  import opened Wrappers
  import opened Diagnostics
  import opened Pool
  import opened LineSource
  import opened Classifier
  import opened Parser

  // ---------------------------------------------------------------------------
  // The questions gathered so far

  /** Every question the context holds, in file order: those already attached
      to the element, then those of the open subelement, then the open group's. */
  function ContextQuestions(c: Context): seq<Question>
  {
    (if c.curElement.Some? then ElementQuestions(c.curElement.value) else [])
    + (if c.curSubelement.Some? then GroupsQuestions(c.curSubelement.value.groups) else [])
    + (if c.curGroup.Some? then c.curGroup.value.questions else [])
  }

  /** Closing the open group moves its questions to the end of the open
      subelement's: no question is lost, duplicated or reordered. */
  lemma CloseGroupKeepsQuestions(c: Context)
    requires c.curGroup.Some? ==> c.curSubelement.Some?
    ensures ContextQuestions(CloseGroup(c)) == ContextQuestions(c)
  {
    if c.curGroup.Some? {
      var s := c.curSubelement.value;
      var gs := s.groups + [c.curGroup.value];
      assert gs[..|gs| - 1] == s.groups;
    }
  }

  /** Closing the open subelement moves its questions to the end of the
      element's: no question is lost, duplicated or reordered. */
  lemma CloseSubelementKeepsQuestions(c: Context)
    requires c.curSubelement.Some? ==> c.curElement.Some?
    ensures ContextQuestions(CloseSubelement(c)) == ContextQuestions(c)
  {
    if c.curSubelement.Some? {
      var e := c.curElement.value;
      var ss := e.subelements + [c.curSubelement.value];
      assert ss[..|ss| - 1] == e.subelements;
    }
  }

  /** Closing twice is closing once, and closing leaves the counts a subelement
      header announced as they were: they are never reconciled with the groups. */
  lemma CloseIdempotent(c: Context)
    requires c.curGroup.Some? ==> c.curSubelement.Some?
    requires c.curSubelement.Some? ==> c.curElement.Some?
    ensures CloseGroup(CloseGroup(c)) == CloseGroup(c)
    ensures CloseSubelement(CloseSubelement(c)) == CloseSubelement(c)
    ensures c.curSubelement.Some? ==>
              CloseGroup(c).curSubelement.value.numq == c.curSubelement.value.numq
              && CloseGroup(c).curSubelement.value.numg == c.curSubelement.value.numg
  {
  }

  // ---------------------------------------------------------------------------
  // One pass of the loop, by kind of line

  /** The line one pass reads and how it is classified. */
  function StepLine(c: Context, f: Filelines, table: seq<Pattern>): Classified
  {
    ParseLine(ReadLine(f, true).line, c.header, table)
  }

  /** A removed question or a blank-boundary line is passed over in every
      state: the pass changes neither the state, the tree nor the header
      fields, logs nothing and only moves the source past the line. */
  lemma SkippedLineIsNoOp(c: Context, f: Filelines, table: seq<Pattern>, src: Source)
    requires Wf(c) && Skipped(StepLine(c, f, table).key)
    ensures Step(c, f, table, src) == StepResult(c, ReadLine(f, true).rest, [])
  {
  }

  /** Once in `end`, a pass leaves the tree alone, stays in `end` and logs
      nothing; the loop stops there. */
  lemma EndIsAbsorbing(c: Context, f: Filelines, table: seq<Pattern>, src: Source)
    requires Wf(c) && c.state == End
    ensures Step(c, f, table, src).ctx.state == End
    ensures Step(c, f, table, src).ctx == c.(header := StepLine(c, f, table).header)
    ensures Step(c, f, table, src).log == []
    ensures Run(c, f, table, src) == StepResult(c, f, [])
  {
  }

  /** On an exhausted source every state other than `end` reads the empty
      sentinel, which is an end, and moves to `end`. */
  lemma ExhaustedSourceEnds(c: Context, f: Filelines, table: seq<Pattern>, src: Source)
    requires Wf(c) && Remaining(f) == 0
    ensures Step(c, f, table, src).ctx.state == End
  {
    assert ReadLine(f, true).line == "";
    assert StepLine(c, f, table).key == Some(KEnd);
  }

  /** In `initial` every line other than an element-ready line or an end is
      tolerated: the state and the tree stay as they were (only the header
      fields the line carries are recorded). */
  lemma InitialTolerates(c: Context, rl: ReadResult, cl: Classified, src: Source)
    requires Wf(c) && c.state == Initial
    requires cl.key != Some(KElement) && cl.key != Some(KEnd)
    ensures Pass(c, rl, cl, src).ctx == c.(header := cl.header)
    ensures Pass(c, rl, cl, src).rest == rl.rest
  {
  }

  /** In `element`, `subelement` and `group`, a line the state does not expect
      (and that is not skipped) ends the parse with an error and leaves the tree
      as it was: an open group or subelement is not attached. */
  lemma UnexpectedLineEnds(c: Context, rl: ReadResult, cl: Classified, src: Source)
    requires Wf(c)
    requires var k := cl.key;
             && !Skipped(k)
             && (c.state == ElementState ==> k != Some(KSubelement))
             && (c.state == SubelementState ==> k != Some(KGroup))
             && (c.state == GroupState ==>
                   k != Some(KGroup) && k != Some(KSubelement) && k != Some(KQuestion) && k != Some(KEnd))
    requires c.state == ElementState || c.state == SubelementState || c.state == GroupState
    ensures Pass(c, rl, cl, src).ctx == c.(state := End, header := cl.header)
    ensures Pass(c, rl, cl, src).log[0].msgType == "Error"
  {
  }

  /** Appending a question to the open group adds it at the end of the
      questions the context holds. */
  lemma AppendQuestionExtends(c: Context, q: Question)
    requires c.curGroup.Some? && GroupWf(c.curGroup.value) && QuestionWf(q)
    ensures ContextQuestions(c.(curGroup := Some(AppendQuestion(c.curGroup.value, q)))) == ContextQuestions(c) + [q]
  {
  }

  /** The diagnostics of a question read, which are empty for a terminated
      block and E005 (at line `termNum`) otherwise, hold E005 once the I002 of
      the question header is put in front exactly when the block is not
      terminated. */
  lemma QuestionLogE005(num: int, log: seq<Diag>, terminated: bool, termNum: int)
    requires log == [] <==> terminated
    requires log != [] ==> log == [Diag("Error", "E005", termNum)]
    ensures Logged([Diag("Info", "I002", num)] + log, "E005") <==> !terminated
  {
    var head := [Diag("Info", "I002", num)];
    LoggedConcat(head, log, "E005");
    assert !Logged(head, "E005") by {
      assert head[0].id[0] != 'E';
    }
    if log != [] {
      assert log[0].id == "E005";
    }
  }

  /** A question header in `group` appends exactly one question, the one read
      after it, to the open group; nothing else in the tree changes, and E005 is
      logged exactly when the terminator is not `~~` (the question is kept
      either way). */
  lemma QuestionAppends(c: Context, m: Captures, num: int, f: Filelines)
    requires Wf(c) && c.state == GroupState
    ensures var qr := ReadQuestion(m, f, c.curGroup.value.topics);
            var r := StepGroup(c, Some(KQuestion), m, num, f);
            && r.ctx == c.(curGroup := Some(AppendQuestion(c.curGroup.value, qr.q)))
            && ContextQuestions(r.ctx) == ContextQuestions(c) + [qr.q]
            && r.rest == qr.rest
            && (Logged(r.log, "E005") <==> !IsTerminator(QuestionReads(f).term.line))
  {
    var qr := ReadQuestion(m, f, c.curGroup.value.topics);
    var b := QuestionReads(f);
    AppendQuestionExtends(c, qr.q);
    QuestionLogE005(num, qr.log, IsTerminator(b.term.line), b.term.num);
  }

  /** In `group`, a group header, a subelement header and an end close what they
      close without losing a question: the questions gathered so far are the
      same afterwards. */
  lemma GroupStateKeepsQuestions(c: Context, rl: ReadResult, cl: Classified, src: Source)
    requires Wf(c) && c.state == GroupState
    requires cl.key == Some(KGroup) || cl.key == Some(KSubelement) || cl.key == Some(KEnd)
    ensures ContextQuestions(Pass(c, rl, cl, src).ctx) == ContextQuestions(c)
  {
    var c1 := c.(header := cl.header);
    CloseGroupKeepsQuestions(c1);
    CloseSubelementKeepsQuestions(CloseGroup(c1));
  }

  // ---------------------------------------------------------------------------
  // The one-line element header

  /** With the table as written, a one-line element header is reported under
      the concatenated key, which no branch tests, so none of its header fields
      is recorded. */
  lemma AsWrittenOneLineHeaderKey(line: string, h: Header, rx: Recognizers)
    requires |line| > 0 && rx("element_onel")(line).Some?
    ensures ParseLine(line, h, AsWrittenTable(rx)).key == Some(KOther(TableDocstring + "element_onel"))
    ensures ParseLine(line, h, AsWrittenTable(rx)).header == h
  {
    var t := AsWrittenTable(rx);
    AsWrittenKeysFacts();
    FirstMatchWins(line, h, t, 0);
    assert |t[0].key| > 12;
  }

  /** The same without naming the key: an unknown key that leaves the header
      fields as they were. */
  lemma AsWrittenOneLineHeaderUnknown(line: string, h: Header, rx: Recognizers)
    requires |line| > 0 && rx("element_onel")(line).Some?
    ensures ParseLine(line, h, AsWrittenTable(rx)).key.Some?
    ensures ParseLine(line, h, AsWrittenTable(rx)).key.value.KOther?
    ensures ParseLine(line, h, AsWrittenTable(rx)).header == h
  {
    AsWrittenOneLineHeaderKey(line, h, rx);
  }

  /** In `initial`, a line reported under a key no branch names is tolerated
      with I001. */
  lemma InitialUnknownKey(c: Context, rl: ReadResult, cl: Classified, src: Source)
    requires Wf(c) && c.state == Initial
    requires cl.key.Some? && cl.key.value.KOther?
    ensures Pass(c, rl, cl, src).ctx == c.(header := cl.header)
    ensures Pass(c, rl, cl, src).log == [Diag("Info", "I001", rl.num)]
  {
  }

  /** In `initial`, the table as written therefore merely tolerates a line that
      is a one-line element header (I001): the context stays as it was. */
  lemma AsWrittenIgnoresOneLineHeader(c: Context, rl: ReadResult, rx: Recognizers, src: Source)
    requires Wf(c) && c.state == Initial
    requires |rl.line| > 0 && rx("element_onel")(rl.line).Some?
    ensures var r := Pass(c, rl, ParseLine(rl.line, c.header, AsWrittenTable(rx)), src);
            r.ctx == c && r.log == [Diag("Info", "I001", rl.num)]
  {
    AsWrittenOneLineHeaderUnknown(rl.line, c.header, rx);
    InitialUnknownKey(c, rl, ParseLine(rl.line, c.header, AsWrittenTable(rx)), src);
  }

  /** With the corrected table the one-line element header is the first
      pattern tried: it is reported as `element` and records all four header
      fields. */
  lemma CorrectedOneLineHeaderKey(line: string, h: Header, rx: Recognizers)
    requires |line| > 0 && rx("element_onel")(line).Some?
    ensures var m := rx("element_onel")(line).value;
            && ParseLine(line, h, CorrectedTable(rx)).key == Some(KElement)
            && ParseLine(line, h, CorrectedTable(rx)).header ==
                 Header(Cap(m, "elname"), Some(Range(Cap(m, "begin"), Cap(m, "end"))),
                        Some(Range(Cap(m, "effbegin"), "")), Cap(m, "elnum"))
  {
    FirstMatchWins(line, h, CorrectedTable(rx), 0);
  }

  /** In `initial`, a line reported as `element` opens the element the header
      fields (as recorded by that line) describe, and logs the state change. */
  lemma InitialElementKey(c: Context, rl: ReadResult, cl: Classified, src: Source)
    requires Wf(c) && c.state == Initial
    requires cl.key == Some(KElement)
    ensures var h := cl.header;
            && Pass(c, rl, cl, src).ctx.state == ElementState
            && Pass(c, rl, cl, src).ctx.curElement ==
                 Some(Element(src.filename, src.filetype, h.elNum, h.elName, h.elYrValid, h.elEffective, []))
            && Pass(c, rl, cl, src).log == [Diag("Info", "I004", rl.num)]
  {
  }

  /** With the corrected table, a one-line element header records all four
      header fields and, in `initial`, opens the element those fields describe. */
  lemma CorrectedOpensOneLineHeader(c: Context, rl: ReadResult, rx: Recognizers, src: Source)
    requires Wf(c) && c.state == Initial
    requires |rl.line| > 0 && rx("element_onel")(rl.line).Some?
    ensures var m := rx("element_onel")(rl.line).value;
            var r := Pass(c, rl, ParseLine(rl.line, c.header, CorrectedTable(rx)), src);
            && r.ctx.state == ElementState
            && r.ctx.curElement == Some(Element(src.filename, src.filetype, Cap(m, "elnum"), Cap(m, "elname"),
                                                Some(Range(Cap(m, "begin"), Cap(m, "end"))),
                                                Some(Range(Cap(m, "effbegin"), "")), []))
  {
    CorrectedOneLineHeaderKey(rl.line, c.header, rx);
    InitialElementKey(c, rl, ParseLine(rl.line, c.header, CorrectedTable(rx)), src);
  }
}
