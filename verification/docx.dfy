/** `get_docx_text`: the walk over the elements of a Word document's XML that
    folds text runs and symbol characters into paragraphs. The document is given
    as the sequence of elements the walk meets, reduced to what the walk looks
    at: paragraph marks, symbols (with their character code) and text runs. */
module Docx {
  import opened Text

  /** One element of the walk: `w:p`, `w:sym` with its `w:char` code, `w:t`
      with its text, or any other element. */
  datatype Event = Para | Sym(code: string) | Run(text: string) | Other

  /** `SYMDICT`: the symbol codes the extractor knows. */
  const SymbolTable: map<string, string> := map["F0B4" := "x", "0000" := "u\\unkn"]

  /** The text put in place of an unknown symbol. */
  const UnknownSymbol: string := "u\\unkn"

  /** The text of a symbol: its code upper-cased and looked up, unknown codes
      standing for themselves as `u\unkn`. */
  function SymbolText(code: string): (r: string)
    ensures r == "x" || r == UnknownSymbol
  {
    var key := Upper(code);
    if key in SymbolTable then SymbolTable[key] else UnknownSymbol
  }

  /** Only the multiplication sign is translated: every other code, `0000`
      included, gives `u\unkn`, whatever its letter case. */
  lemma SymbolTextCases(code: string)
    ensures SymbolText(code) == "x" <==> Upper(code) == "F0B4"
    ensures SymbolText(code) != "x" ==> SymbolText(code) == UnknownSymbol
  {
    assert SymbolTable["F0B4"] == "x";
    assert UnknownSymbol != "x" by { assert |UnknownSymbol| != 1; }
  }

  /** The code `f0b4` in lower case is the multiplication sign too. */
  lemma LowerCaseSymbol()
    ensures SymbolText(['f', '0', 'b', '4']) == "x"
  {
    var u := Upper(['f', '0', 'b', '4']);
    assert u == ['F', '0', 'B', '4'];
  }

  /** The walk's two accumulators: the pieces of the paragraph being read and
      the paragraphs finished so far. */
  datatype Fold = Fold(texts: seq<string>, paragraphs: seq<string>)

  /** `''.join(texts)`. */
  function Concat(ts: seq<string>): string
  {
    if |ts| == 0 then "" else Concat(ts[..|ts| - 1]) + ts[|ts| - 1]
  }

  /** `if texts: paragraphs.append(''.join(texts))`: a paragraph is emitted only
      when pieces are pending, even if they are all empty. Flushing keeps the
      finished paragraphs in front and loses no pending text. */
  function Flush(st: Fold): (r: seq<string>)
    ensures st.paragraphs <= r && |r| <= |st.paragraphs| + 1
    ensures |r| == |st.paragraphs| + 1 <==> |st.texts| > 0
    ensures Concat(r) == Concat(st.paragraphs) + Concat(st.texts)
  {
    if |st.texts| > 0 then
      ConcatLast(st.paragraphs, Concat(st.texts));
      st.paragraphs + [Concat(st.texts)]
    else st.paragraphs
  }

  /** One element: a paragraph mark flushes the pending pieces and starts
      afresh; a symbol or a text run adds one piece; anything else is ignored. */
  function Visit(st: Fold, e: Event): (r: Fold)
    ensures st.paragraphs <= r.paragraphs
  {
    match e
    case Para => Fold([], Flush(st))
    case Sym(code) => st.(texts := st.texts + [SymbolText(code)])
    case Run(text) => st.(texts := st.texts + [text])
    case Other => st
  }

  /** One element loses no text: what has been read, flushed, grows by exactly
      the element's piece. */
  lemma VisitKeepsText(st: Fold, e: Event)
    ensures Concat(Flush(Visit(st, e))) == Concat(Flush(st)) + Concat(Piece(e))
  {
    match e
    case Para =>
    case Sym(code) => AddKeepsText(st, SymbolText(code));
    case Run(text) => AddKeepsText(st, text);
    case Other =>
  }

  /** Adding a piece to the pending ones adds its text at the end. */
  lemma AddKeepsText(st: Fold, x: string)
    ensures Concat(Flush(st.(texts := st.texts + [x]))) == Concat(Flush(st)) + Concat([x])
  {
    ConcatLast(st.texts, x);
    ConcatLast([], x);
    assert [] + [x] == [x];
  }

  /** The `for` loop over the elements: finished paragraphs stay finished. */
  function Walk(es: seq<Event>, st: Fold): (r: Fold)
    ensures st.paragraphs <= r.paragraphs
  {
    if |es| == 0 then st else Walk(es[1..], Visit(st, es[0]))
  }

  /** The walk loses no text: what it has read, flushed, is what it started
      with followed by the pieces of all elements, in order. */
  lemma {:induction false} WalkKeepsText(es: seq<Event>, st: Fold)
    ensures Concat(Flush(Walk(es, st))) == Concat(Flush(st)) + Concat(Pieces(es))
  {
    if |es| > 0 {
      VisitKeepsText(st, es[0]);
      WalkKeepsText(es[1..], Visit(st, es[0]));
      ConcatAppend(Piece(es[0]), Pieces(es[1..]));
    }
  }

  /** `get_docx_text`: walk all elements, then flush what is pending. The
      paragraphs, put back together, are all the text of the document's runs
      and symbols in document order: nothing is lost, nothing is added. */
  function DocxText(es: seq<Event>): (r: seq<string>)
    ensures Concat(r) == Concat(Pieces(es))
  {
    WalkKeepsText(es, Fold([], []));
    Flush(Walk(es, Fold([], [])))
  }

  /** `''.join` of one more piece. */
  lemma ConcatLast(ts: seq<string>, x: string)
    ensures Concat(ts + [x]) == Concat(ts) + x
  {
    assert (ts + [x])[..|ts|] == ts;
  }

  /** `''.join` distributes over concatenation of the pieces. */
  lemma {:induction false} ConcatAppend(a: seq<string>, b: seq<string>)
    ensures Concat(a + b) == Concat(a) + Concat(b)
    decreases |b|
  {
    if |b| == 0 {
      assert a + b == a;
    } else {
      var b', x := b[..|b| - 1], b[|b| - 1];
      calc {
        Concat(a + b);
        { assert a + b == (a + b') + [x]; ConcatLast(a + b', x); }
        Concat(a + b') + x;
        { ConcatAppend(a, b'); }
        Concat(a) + Concat(b') + x;
        { assert b == b' + [x]; ConcatLast(b', x); }
        Concat(a) + Concat(b);
      }
    }
  }

  /** The piece an element contributes, if any. */
  function Piece(e: Event): seq<string>
  {
    match e
    case Sym(code) => [SymbolText(code)]
    case Run(text) => [text]
    case _ => []
  }

  /** The pieces of a run of elements, in order. */
  function Pieces(es: seq<Event>): seq<string>
  {
    if |es| == 0 then [] else Piece(es[0]) + Pieces(es[1..])
  }

  /** Walking two runs of elements is walking the first, then the second. */
  lemma {:induction false} WalkAppend(a: seq<Event>, b: seq<Event>, st: Fold)
    ensures Walk(a + b, st) == Walk(b, Walk(a, st))
  {
    if |a| == 0 {
      assert a + b == b;
    } else {
      assert (a + b)[0] == a[0] && (a + b)[1..] == a[1..] + b;
      WalkAppend(a[1..], b, Visit(st, a[0]));
    }
  }

  /** Without a paragraph mark the walk only adds pieces: it appends the
      pieces of the run to the pending ones and finishes no paragraph. */
  lemma {:induction false} WalkWithoutMarks(es: seq<Event>, st: Fold)
    requires forall k :: 0 <= k < |es| ==> !es[k].Para?
    ensures Walk(es, st) == Fold(st.texts + Pieces(es), st.paragraphs)
  {
    if |es| > 0 {
      assert forall k :: 0 <= k < |es| - 1 ==> es[1..][k] == es[k + 1];
      WalkWithoutMarks(es[1..], Visit(st, es[0]));
      assert st.texts + Piece(es[0]) + Pieces(es[1..]) == st.texts + Pieces(es);
    }
  }

  /** The paragraphs finished before a walk are kept, in front, and do not
      influence the rest. */
  lemma WalkKeepsParagraphs(es: seq<Event>, texts: seq<string>, ps: seq<string>)
    ensures Walk(es, Fold(texts, ps)).texts == Walk(es, Fold(texts, [])).texts
    ensures Walk(es, Fold(texts, ps)).paragraphs == ps + Walk(es, Fold(texts, [])).paragraphs
  {
    assert ps + [] == ps;
    WalkPrefix(es, Fold(texts, []), ps);
  }

  /** Paragraphs put in front before a walk stay in front after it. */
  lemma {:induction false} WalkPrefix(es: seq<Event>, st: Fold, ps: seq<string>)
    ensures Walk(es, st.(paragraphs := ps + st.paragraphs))
            == Walk(es, st).(paragraphs := ps + Walk(es, st).paragraphs)
  {
    if |es| > 0 {
      VisitPrefix(st, ps, es[0]);
      WalkPrefix(es[1..], Visit(st, es[0]), ps);
    }
  }

  /** Paragraphs put in front before one element stay in front after it. */
  lemma VisitPrefix(st: Fold, ps: seq<string>, e: Event)
    ensures Visit(st.(paragraphs := ps + st.paragraphs), e)
            == Visit(st, e).(paragraphs := ps + Visit(st, e).paragraphs)
  {
    if e.Para? && |st.texts| > 0 {
      assert ps + st.paragraphs + [Concat(st.texts)] == ps + (st.paragraphs + [Concat(st.texts)]);
    }
  }

  /** A document without paragraph marks is at most one paragraph: the
      concatenation of all its pieces, and nothing when it has none. */
  lemma OneParagraph(es: seq<Event>)
    requires forall k :: 0 <= k < |es| ==> !es[k].Para?
    ensures |Pieces(es)| == 0 ==> DocxText(es) == []
    ensures |Pieces(es)| > 0 ==> DocxText(es) == [Concat(Pieces(es))]
  {
    WalkWithoutMarks(es, Fold([], []));
    assert [] + Pieces(es) == Pieces(es);
  }

  /** A paragraph mark splits the document: the paragraphs of the whole are
      those of the part before the mark followed by those of the part after. */
  lemma MarkSplits(a: seq<Event>, b: seq<Event>)
    ensures DocxText(a + [Para] + b) == DocxText(a) + DocxText(b)
  {
    var st := Walk(a, Fold([], []));
    WalkAppend(a, [Para] + b, Fold([], []));
    assert a + [Para] + b == a + ([Para] + b);
    WalkAppend([Para], b, st);
    var mid := Walk([Para], st);
    assert mid == Fold([], Flush(st));
    WalkKeepsParagraphs(b, [], Flush(st));
  }
}
