/** The question-pool tree: Element → Subelement → Group → Question, with the
    constructors' behaviour and the `;`-based topic split of a group description. */
module Pool {
  import opened Wrappers
  import opened Text

  /** A `{'begin': …, 'end': …}` pair (validity years or effective dates). */
  datatype Range = Range(begin: string, end: string)

  /** One multiple-choice question. `topics` is always empty: the experimental
      topic assessment keeps nothing of the list it is offered. */
  datatype Question = Question(
    subelement: string, group: string, num: string, qid: string, text: string,
    correct: string, figure: string, answers: seq<string>, fcc: string,
    topics: seq<string>)

  /** A group of questions; `topics` is derived from `description`. */
  datatype Group = Group(
    subelement: string, groupId: string, description: string,
    topics: seq<string>, questions: seq<Question>)

  /** A subelement; `numq` and `numg` are the counts its header declares. */
  datatype Subelement = Subelement(
    elem: string, subEl: string, description: string, numq: string, numg: string,
    groups: seq<Group>)

  /** The root of the tree. `yrvalid` and `effective` are `None` while the
      header never supplied them (the parse context's initial `''`). */
  datatype Element = Element(
    filename: string, filetype: string, elem: string, elname: string,
    yrvalid: Option<Range>, effective: Option<Range>, subelements: seq<Subelement>)

  /** `Question.__init__`: every field is stored as given, with no check of the
      answer count or of the correct letter, and the topic list offered is dropped. */
  function NewQuestion(subelement: string, group: string, num: string, qid: string,
                       text: string, correct: string, figure: string,
                       answers: seq<string>, fcc: string, topicList: seq<string>): (q: Question)
    ensures q.topics == []
    ensures q.subelement == subelement && q.group == group && q.num == num && q.qid == qid
    ensures q.text == text && q.correct == correct && q.figure == figure
    ensures q.answers == answers && q.fcc == fcc
  {
    Question(subelement, group, num, qid, text, correct, figure, answers, fcc, QuestionTopics(topicList))
  }

  /** `Question.get_topics`: the topics of a question, whatever list is offered. */
  function QuestionTopics(topicList: seq<string>): (r: seq<string>)
    ensures |r| == 0
  {
    []
  }

  /** `Group.get_topics`: the description split on `;`, each piece stripped. */
  function GetTopics(description: string): (r: seq<string>)
    ensures |r| == Count(description, ';') + 1
    ensures forall i :: 0 <= i < |r| ==> Stripped(r[i]) && ';' !in r[i]
    ensures forall i :: 0 <= i < |r| ==> |r[i]| <= |Split(description, ';')[i]|
  {
    var pieces := Split(description, ';');
    seq(|pieces|, i requires 0 <= i < |pieces| => Strip(pieces[i]))
  }

  /** The topics of a group are those of its description. */
  predicate TopicsConsistent(g: Group)
  {
    g.topics == GetTopics(g.description)
  }

  /** `Group.__init__`: stores the fields and derives the topics. */
  function NewGroup(subelement: string, groupId: string, description: string,
                    questions: seq<Question>): (g: Group)
    ensures TopicsConsistent(g)
    ensures g.subelement == subelement && g.groupId == groupId
    ensures g.description == description && g.questions == questions
  {
    Group(subelement, groupId, description, GetTopics(description), questions)
  }

  /** `Group.set_description`: replaces the description and recomputes the topics
      from it; nothing else changes. */
  function SetDescription(g: Group, description: string): (r: Group)
    ensures r.description == description && TopicsConsistent(r)
    ensures r.subelement == g.subelement && r.groupId == g.groupId && r.questions == g.questions
  {
    g.(description := description, topics := GetTopics(description))
  }

  /** Re-setting the same description is idempotent, and on a consistent group it
      changes nothing. */
  lemma SetDescriptionIdempotent(g: Group, d: string)
    ensures SetDescription(SetDescription(g, d), d) == SetDescription(g, d)
    ensures TopicsConsistent(g) ==> SetDescription(g, g.description) == g
  {
  }

  /** Each topic is a piece of the description with surrounding whitespace removed:
      the pieces, rejoined with `;`, give the description back. */
  lemma TopicsArePieces(description: string)
    ensures Join(Split(description, ';'), ';') == description
    ensures forall i :: 0 <= i < |GetTopics(description)| ==>
              GetTopics(description)[i] == Strip(Split(description, ';')[i])
  {
    JoinSplit(description, ';');
  }

  /** An empty description gives exactly one empty topic, and a description
      without `;` gives itself, stripped, as its only topic. */
  lemma TopicsOfPlainDescription(description: string)
    requires ';' !in description
    ensures GetTopics(description) == [Strip(description)]
  {
    SplitNoSeparator(description, ';');
  }

  /** A description "a; b" with `;` in neither part has the topics `a` and `b`,
      stripped, in that order (so "Purpose; Interference" gives "Purpose" and
      "Interference"). */
  lemma TopicsOfTwoPieces(a: string, b: string)
    requires ';' !in a && ';' !in b
    ensures GetTopics(a + [';'] + b) == [Strip(a), Strip(b)]
  {
    SplitPrefix(a, b, ';');
    SplitNoSeparator(b, ';');
  }

  // ---------------------------------------------------------------------------
  // The questions of a tree, in file order

  /** The questions of a sequence of groups, group by group. */
  function GroupsQuestions(gs: seq<Group>): seq<Question>
  {
    if |gs| == 0 then [] else GroupsQuestions(gs[..|gs| - 1]) + gs[|gs| - 1].questions
  }

  /** The questions of a sequence of subelements, subelement by subelement. */
  function SubelementsQuestions(ss: seq<Subelement>): seq<Question>
  {
    if |ss| == 0 then [] else SubelementsQuestions(ss[..|ss| - 1]) + GroupsQuestions(ss[|ss| - 1].groups)
  }

  /** Every question of an element: subelement by subelement, group by group. */
  function ElementQuestions(e: Element): seq<Question>
  {
    SubelementsQuestions(e.subelements)
  }
}
