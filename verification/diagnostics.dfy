/** The diagnostics the parser emits through `msg`, and the two print filters
    the repository defines for them. */
module Diagnostics {
  import opened Wrappers
  import opened Text
  import opened Seqs

  /** One call of `msg`: its message type ("Error", "Info", ...), its id
      ("E005", "I004", ...) and the number of the line it refers to. */
  datatype Diag = Diag(msgType: string, id: string, lineNum: int)

  /** Whether some diagnostic in `log` carries the id `id`. */
  predicate Logged(log: seq<Diag>, id: string)
  {
    exists k :: 0 <= k < |log| && log[k].id == id
  }

  /** A diagnostic logged by either of two consecutive parts is logged by both
      together, and only then. */
  lemma LoggedConcat(a: seq<Diag>, b: seq<Diag>, id: string)
    ensures Logged(a + b, id) <==> Logged(a, id) || Logged(b, id)
  {
    if Logged(a + b, id) {
      var k :| 0 <= k < |a + b| && (a + b)[k].id == id;
      if k >= |a| {
        assert b[k - |a|].id == id;
      }
    }
    if Logged(a, id) {
      var k :| 0 <= k < |a| && a[k].id == id;
      assert (a + b)[k].id == id;
    }
    if Logged(b, id) {
      var k :| 0 <= k < |b| && b[k].id == id;
      assert (a + b)[|a| + k].id == id;
    }
  }

  /** Message types known to the parser's own `msg`, in priority order. */
  const ParserTypes: seq<string> := ["zero", "Error", "Warning", "Info"]

  /** The filter of the parser's `msg`: a message prints when its type's priority
      is below 3, and `None` stands for the `ValueError` that `list.index`
      raises for a type outside the list. */
  function ParserMsgPrinted(t: string): (r: Option<bool>)
    ensures r.None? <==> t !in ParserTypes
    ensures r == Some(true) <==> t == "zero" || t == "Error" || t == "Warning"
  {
    var pri := IndexOf(ParserTypes, t);
    if pri == -1 then None else Some(pri < 3)
  }

  /** Message types known to the `msg` of the question classes, in priority order. */
  const MsgTypes: seq<string> := ["zero", "Error", "Warning", "Info", "Debug"]

  /** The id string whose substrings are muted. */
  const MutedIds: string := "W403"

  /** What the `msg` of the question classes does with one message. */
  datatype MsgOutcome =
    | Printed        // the formatted message line
    | Suppressed     // nothing
    | InvalidType    // the "Invalid Message Type" error line instead

  /** The print filter: types of priority below 4 print unless the id is a
      substring of "W403"; an unknown type yields the invalid-type line. */
  function ClassesMsg(t: string, id: string): (r: MsgOutcome)
    ensures r == InvalidType <==> t !in MsgTypes
    ensures r == Printed ==> t != "Debug" && !IsSubstring(id, MutedIds)
    ensures t in MsgTypes && t != "Debug" && !IsSubstring(id, MutedIds) ==> r == Printed
  {
    if t !in MsgTypes then InvalidType
    else
      var pri := IndexOf(MsgTypes, t);
      if pri < 4 && !IsSubstring(id, MutedIds) then Printed else Suppressed
  }

  /** A known message is suppressed exactly when it is a Debug message or its id
      occurs somewhere inside "W403" (so "W403", "W40", "403", "" are all muted). */
  lemma SuppressedIff(t: string, id: string)
    requires t in MsgTypes
    ensures ClassesMsg(t, id) == Suppressed <==>
            t == "Debug" || exists i: nat :: OccursAt(id, MutedIds, i)
  {
    IsSubstringIff(id, MutedIds);
  }

  /** Debug messages are never printed, whatever their id. */
  lemma DebugNeverPrinted(id: string)
    ensures ClassesMsg("Debug", id) == Suppressed
  {
  }

  /** The muted category concretely: W403 itself and its pieces are silent even
      as errors, while an ordinary error id prints. */
  lemma MutedExamples()
    ensures ClassesMsg("Error", "W403") == Suppressed
    ensures ClassesMsg("Warning", "40") == Suppressed
    ensures ClassesMsg("Error", "E005") == Printed
  {
    assert OccursAt("W403", MutedIds, 0);
    assert OccursAt("40", MutedIds, 1);
    IsSubstringIff("W403", MutedIds);
    IsSubstringIff("40", MutedIds);
    assert MutedIds[0] != "E005"[0];
    SubstringNoLonger("E005", MutedIds[1..]);
    assert !IsSubstring("E005", MutedIds);
    assert MsgTypes[1] == "Error";
    assert IndexOf(MsgTypes, "Error") == 1;
  }
}
