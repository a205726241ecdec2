/** `ElementPool.getQuestionsByIds`: the web page's lookup of questions by id in
    a parsed pool. Each question found is placed at the first position of its id
    in the request; positions below the last one filled that nothing filled get
    an empty object and an error message. */
module Lookup {
  import opened Wrappers
  import opened Text
  import opened Seqs
  import opened Pool

  /** One question in the shape the page uses. */
  datatype PageQuestion = PageQuestion(qid: string, figure: string, title: string,
                                       answers: seq<string>, correct: int)

  /** One slot of the returned question array: the `''` of an error return,
      the `{}` put in a hole, or a question. */
  datatype Entry = EmptyString | EmptyObject | Found(q: PageQuestion)

  /** The pair `[result, resultMsgs]` the method returns. */
  datatype LookupResult = LookupResult(entries: seq<Entry>, msgs: seq<string>)

  /** The letters whose position is the numeric `correct` of a page question. */
  const AnswerLetters: seq<string> := ["A", "B", "C", "D"]

  /** The option that removes the `A. ` prefix of every answer. */
  const StripPrefixOption: string := "strip-answer-prefix"

  const ElementEmptyMsg: string := "this.element is empty"
  const NotArrayMsg: string := "input is not an array"
  const FoundMsg: string := "question found"
  const HolePrefix: string := "result is empty at index "

  // ---------------------------------------------------------------------------
  // Decimal rendering of an index (JavaScript template interpolation)

  function Digit(d: nat): (c: char)
    requires d < 10
    ensures '0' <= c <= '9' && (c as int) - ('0' as int) == d
  {
    (('0' as int) + d) as char
  }

  predicate AllDigits(s: string)
  {
    forall i :: 0 <= i < |s| ==> '0' <= s[i] <= '9'
  }

  /** `${n}` for a non-negative integer: its decimal digits, most significant first. */
  function DecimalString(n: nat): (r: string)
    ensures |r| > 0 && AllDigits(r)
    ensures |r| > 1 ==> r[0] != '0'
  {
    if n < 10 then [Digit(n)] else DecimalString(n / 10) + [Digit(n % 10)]
  }

  /** The number a string of decimal digits denotes. */
  function DecimalValue(s: string): nat
    requires AllDigits(s)
  {
    if |s| == 0 then 0 else DecimalValue(s[..|s| - 1]) * 10 + ((s[|s| - 1] as int) - ('0' as int))
  }

  /** Reading the rendered index back gives the index: distinct holes get
      distinct messages. */
  lemma {:induction false} DecimalRoundTrip(n: nat)
    ensures DecimalValue(DecimalString(n)) == n
  {
    if n >= 10 {
      DecimalRoundTrip(n / 10);
      var s := DecimalString(n);
      assert s[..|s| - 1] == DecimalString(n / 10);
    }
  }

  /** The message of a hole at index `i`. */
  function HoleMsg(i: nat): (r: string)
    ensures r == HolePrefix + DecimalString(i)
    ensures r != FoundMsg
  {
    var r := HolePrefix + DecimalString(i);
    assert r[0] != FoundMsg[0];
    r
  }

  // ---------------------------------------------------------------------------
  // One question

  /** `s.substr(start)`: the suffix after the first `start` characters, empty
      when the string is shorter. */
  function Substr(s: string, start: nat): (r: string)
    ensures |r| == if start <= |s| then |s| - start else 0
    ensures r == s[|s| - |r|..]
  {
    if start <= |s| then s[start..] else ""
  }

  /** The page form of one pool question: the id and figure copied, the title
      `Question #<qid> <text>`, every answer with its first `start` characters
      dropped, and the correct letter as its position in A–D (-1 otherwise). */
  function ToPage(q: Question, start: nat): (r: PageQuestion)
    ensures r.qid == q.qid && r.figure == q.figure
    ensures r.title == "Question #" + q.qid + " " + q.text
    ensures |r.answers| == |q.answers|
    ensures forall i :: 0 <= i < |r.answers| ==> r.answers[i] == Substr(q.answers[i], start)
    ensures -1 <= r.correct < 4
    ensures r.correct == -1 <==> q.correct !in AnswerLetters
    ensures r.correct >= 0 ==> AnswerLetters[r.correct] == q.correct
  {
    var answers := seq(|q.answers|, i requires 0 <= i < |q.answers| => Substr(q.answers[i], start));
    PageQuestion(q.qid, q.figure, "Question #" + q.qid + " " + q.text, answers,
                 IndexOf(AnswerLetters, q.correct))
  }

  /** How many characters each answer loses: three when the options mention
      'strip-answer-prefix', none otherwise. */
  function AnswerStart(options: string): (r: nat)
    ensures r == 3 <==> IsSubstring(StripPrefixOption, options)
    ensures r == 0 <==> !IsSubstring(StripPrefixOption, options)
  {
    if IsSubstring(StripPrefixOption, options) then 3 else 0
  }

  // ---------------------------------------------------------------------------
  // The three nested loops

  /** The sparse `result` array the loops build: the filled positions (with the
      pool question each was built from) and the array's `length` (one past the
      highest position written). */
  datatype Slots = Slots(found: map<nat, Question>, len: nat)

  /** The position a question is stored at: the first index of its id in the
      request, or -1. */
  function Pos(ids: seq<string>, q: Question): int
  {
    IndexOf(ids, q.qid)
  }

  /** The loops over `qs` (the pool's questions in file order), for any way
      `pos` of placing a question: a question with a position is stored there,
      overwriting an earlier one; one with position -1 is passed over. */
  function Collect(qs: seq<Question>, pos: Question -> int): (s: Slots)
    ensures forall i :: i in s.found ==> i < s.len
    ensures forall k :: 0 <= k < |qs| ==> pos(qs[k]) < s.len
    ensures s.len > 0 ==> exists k :: 0 <= k < |qs| && pos(qs[k]) == s.len - 1
  {
    if |qs| == 0 then Slots(map[], 0)
    else
      var s := Collect(qs[..|qs| - 1], pos);
      var q := qs[|qs| - 1];
      var i := pos(q);
      assert forall k :: 0 <= k < |qs| - 1 ==> qs[..|qs| - 1][k] == qs[k];
      if i < 0 then s
      else Slots(s.found[i := q], if s.len < i + 1 then i + 1 else s.len)
  }

  /** A position is filled exactly when some question has it as its position. */
  lemma {:induction false} CollectKeys(qs: seq<Question>, pos: Question -> int, i: nat)
    ensures i in Collect(qs, pos).found <==> exists k :: 0 <= k < |qs| && pos(qs[k]) == i
  {
    if |qs| > 0 {
      var init := qs[..|qs| - 1];
      CollectKeys(init, pos, i);
      if i in Collect(init, pos).found {
        var k :| 0 <= k < |init| && pos(init[k]) == i;
        assert init[k] == qs[k];
      }
      if exists k :: 0 <= k < |qs| && pos(qs[k]) == i {
        var k :| 0 <= k < |qs| && pos(qs[k]) == i;
        if k < |init| {
          assert init[k] == qs[k];
        }
      }
    }
  }

  /** The index of the last question in `qs` whose position is `i`, or -1. */
  function LastAt(qs: seq<Question>, pos: Question -> int, i: nat): (k: int)
    ensures -1 <= k < |qs|
    ensures k >= 0 ==> pos(qs[k]) == i
    ensures forall k' :: k < k' < |qs| ==> pos(qs[k']) != i
  {
    if |qs| == 0 then -1
    else if pos(qs[|qs| - 1]) == i then |qs| - 1
    else
      var k := LastAt(qs[..|qs| - 1], pos, i);
      assert forall k' :: k < k' < |qs| - 1 ==> qs[..|qs| - 1][k'] == qs[k'];
      k
  }

  /** A filled position holds the last question in file order that has it as
      its position. */
  lemma {:induction false} CollectLastWins(qs: seq<Question>, pos: Question -> int, i: nat)
    requires i in Collect(qs, pos).found
    ensures LastAt(qs, pos, i) >= 0
    ensures Collect(qs, pos).found[i] == qs[LastAt(qs, pos, i)]
  {
    var init := qs[..|qs| - 1];
    if pos(qs[|qs| - 1]) != i {
      CollectLastWins(init, pos, i);
      assert init[LastAt(init, pos, i)] == qs[LastAt(init, pos, i)];
    }
  }

  /** The dense arrays returned: every position below `len` holds its question
      and 'question found', or `{}` and the hole message. */
  function Densify(s: Slots, start: nat): (r: LookupResult)
    ensures |r.entries| == |r.msgs| == s.len
    ensures forall i :: 0 <= i < s.len ==>
              (i in s.found ==> r.entries[i] == Found(ToPage(s.found[i], start)) && r.msgs[i] == FoundMsg)
              && (i !in s.found ==> r.entries[i] == EmptyObject && r.msgs[i] == HoleMsg(i))
  {
    LookupResult(
      seq(s.len, i requires 0 <= i < s.len => if i in s.found then Found(ToPage(s.found[i], start)) else EmptyObject),
      seq(s.len, i requires 0 <= i < s.len => if i in s.found then FoundMsg else HoleMsg(i)))
  }

  /** `getQuestionsByIds(qIds, options)`. `element` is `None` when the pool's
      element is empty and `qIds` is `None` when the argument is not an array. */
  function GetQuestionsByIds(element: Option<Element>, qIds: Option<seq<string>>, options: string): (r: LookupResult)
    ensures element.None? ==> r == LookupResult([EmptyString], [ElementEmptyMsg])
    ensures element.Some? && qIds.None? ==> r == LookupResult([EmptyString], [NotArrayMsg])
    ensures element.Some? && qIds.Some? ==>
              && |r.entries| == |r.msgs| <= |qIds.value|
              && forall i :: 0 <= i < |r.entries| ==>
                   && !r.entries[i].EmptyString?
                   && (r.entries[i].Found? <==> r.msgs[i] == FoundMsg)
                   && (r.entries[i].EmptyObject? <==> r.msgs[i] == HoleMsg(i))
  {
    if element.None? then LookupResult([EmptyString], [ElementEmptyMsg])
    else if qIds.None? then LookupResult([EmptyString], [NotArrayMsg])
    else
      var ids := qIds.value;
      Densify(Collect(ElementQuestions(element.value), q => Pos(ids, q)), AnswerStart(options))
  }

  // ---------------------------------------------------------------------------
  // What a caller can rely on

  /** Every question of the pool whose id is requested is returned, at the
      first position of its id in the request. */
  lemma RequestedQuestionIsReturned(e: Element, ids: seq<string>, options: string, k: nat)
    requires k < |ElementQuestions(e)| && ElementQuestions(e)[k].qid in ids
    ensures var i := IndexOf(ids, ElementQuestions(e)[k].qid);
            var r := GetQuestionsByIds(Some(e), Some(ids), options);
            && 0 <= i < |r.entries|
            && ids[i] == ElementQuestions(e)[k].qid
            && r.entries[i].Found? && r.entries[i].q.qid == ElementQuestions(e)[k].qid
            && r.msgs[i] == FoundMsg
  {
    var qs := ElementQuestions(e);
    var i := IndexOf(ids, qs[k].qid);
    var pos := q => Pos(ids, q);
    CollectKeys(qs, pos, i);
    CollectLastWins(qs, pos, i);
    var k' := LastAt(qs, pos, i);
    assert ids[i] == qs[k'].qid;
  }

  /** A returned position holds a question exactly when some question of the
      pool has its id first requested there, and then it is the page form of
      the last such question in file order; the answers lose their first three
      characters exactly when the options mention 'strip-answer-prefix'. */
  lemma ReturnedQuestionIsRequested(e: Element, ids: seq<string>, options: string, i: nat)
    requires i < |GetQuestionsByIds(Some(e), Some(ids), options).entries|
    ensures var qs := ElementQuestions(e);
            var r := GetQuestionsByIds(Some(e), Some(ids), options);
            var start := AnswerStart(options);
            && (r.entries[i].Found? <==> exists k :: 0 <= k < |qs| && Pos(ids, qs[k]) == i)
            && (r.entries[i].Found? ==>
                  exists k :: 0 <= k < |qs| && Pos(ids, qs[k]) == i
                    && r.entries[i].q == ToPage(qs[k], start)
                    && forall k' :: k < k' < |qs| ==> Pos(ids, qs[k']) != i)
  {
    var qs := ElementQuestions(e);
    var pos := q => Pos(ids, q);
    CollectKeys(qs, pos, i);
    if i in Collect(qs, pos).found {
      CollectLastWins(qs, pos, i);
    }
  }

  /** The returned arrays end with a question: ids requested after the last one
      matched give no entry at all, not even a hole. */
  lemma NoTrailingHole(e: Element, ids: seq<string>, options: string)
    ensures var r := GetQuestionsByIds(Some(e), Some(ids), options);
            |r.entries| > 0 ==> r.entries[|r.entries| - 1].Found? && r.msgs[|r.msgs| - 1] == FoundMsg
  {
    var qs := ElementQuestions(e);
    var pos := q => Pos(ids, q);
    var s := Collect(qs, pos);
    assert GetQuestionsByIds(Some(e), Some(ids), options) == Densify(s, AnswerStart(options));
    if s.len > 0 {
      var k :| 0 <= k < |qs| && pos(qs[k]) == s.len - 1;
      CollectKeys(qs, pos, s.len - 1);
      assert s.len - 1 in s.found;
    }
  }
}
