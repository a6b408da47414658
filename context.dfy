/** Assembling the context for the model, app.py:259-264: the ranked
    matches, the best five of them labelled with their file names and
    joined by blank lines, or a fixed notice when nothing is uploaded. */
module Retrieval {
  import opened Text
  import opened Paragraphs
  import opened Chunker
  import opened Documents
  import opened Ranking

  /** `relevant_chunks[:5]` */
  const TopCount := 5

  /** The context when no document is loaded ("no documents uploaded"). */
  const NoDocuments := "没有上传任何文档"

  /** `ms[:n]`: the first `n` elements, or all of them when there are fewer. */
  function Top<T>(ms: seq<T>, n: nat): (r: seq<T>)
    ensures |r| == if |ms| < n then |ms| else n
    ensures r == ms[..|r|]
  {
    if |ms| <= n then ms else ms[..n]
  }

  /** `f"[来自 {c['file']}]:\n{c['content']}"` ("from <file>"). */
  function Entry(m: Match): string {
    "[来自 " + m.file + "]:\n" + m.content
  }

  function Entries(ms: seq<Match>): (r: seq<string>)
    ensures |r| == |ms| && forall k :: 0 <= k < |ms| ==> r[k] == Entry(ms[k])
  {
    seq(|ms|, k requires 0 <= k < |ms| => Entry(ms[k]))
  }

  /** `relevant_chunks` after the sort at app.py:260. */
  function Ranked(question: string, names: seq<string>, docs: map<string, Document>): seq<Match>
    requires forall n :: n in names ==> n in docs
  {
    SortByRelevance(Collected(question, names, docs))
  }

  /** `context`; `names` lists the loaded documents in insertion order. */
  function Context(question: string, names: seq<string>, docs: map<string, Document>): string
    requires forall n :: n in names ==> n in docs
  {
    if |names| == 0 then NoDocuments
    else Join(Entries(Top(Ranked(question, names, docs), TopCount)))
  }

  /** The retrieval step of app.py:245-264. */
  method Retrieve(question: string, names: seq<string>, docs: map<string, Document>)
    returns (ranked: seq<Match>, context: string)
    requires forall n :: n in names ==> n in docs
    ensures ranked == Ranked(question, names, docs)
    ensures context == Context(question, names, docs)
  {
    if |names| > 0 {
      var matches := CollectMatches(question, names, docs);
      ranked := SortByRelevance(matches);
      context := Join(Entries(Top(ranked, TopCount)));
    } else {
      ranked := [];
      context := NoDocuments;
    }
  }

  /** The ranking is the collected list, sorted by non-increasing
      relevance, rearranged without loss, with ties in collection order. */
  lemma {:induction false} RankedSpec(question: string, names: seq<string>, docs: map<string, Document>)
    requires forall n :: n in names ==> n in docs
    ensures var r, ms := Ranked(question, names, docs), Collected(question, names, docs);
      && NonIncreasing(r) && |r| == |ms|
      && multiset(r) == multiset(ms)
      && forall v: nat :: WithRelevance(r, v) == WithRelevance(ms, v)
  {
    var ms := Collected(question, names, docs);
    SortSorted(ms);
    SortPermutation(ms);
    forall v: nat ensures WithRelevance(SortByRelevance(ms), v) == WithRelevance(ms, v) {
      SortStable(ms, v);
    }
  }

  /** Every ranked match is a chunk of the document it names, with its
      true relevance, which is at least 1. */
  lemma {:induction false} RankedFromDocuments(question: string, names: seq<string>, docs: map<string, Document>)
    requires forall n :: n in names ==> n in docs
    ensures forall m :: m in Ranked(question, names, docs) ==>
      m.file in names && m.content in docs[m.file].chunks && m.relevance == Overlap(question, m.content) >= 1
  {
    var r, ms := Ranked(question, names, docs), Collected(question, names, docs);
    SortPermutation(ms);
    CollectedFromDocuments(question, names, docs);
    forall m | m in r ensures m in ms {
      assert m in multiset(r);
    }
  }

  lemma {:induction false} JoinNonEmpty(ps: seq<string>)
    requires |ps| > 0 && |ps[0]| > 0
    ensures |Join(ps)| > 0
  {
    if |ps| > 1 {
      assert Join(ps) == ps[0] + "\n\n" + Join(ps[1..]);
    }
  }

  /** With no document the context is the notice; with documents it is
      empty exactly when no chunk shares a word with the question. */
  lemma {:induction false} ContextCases(question: string, names: seq<string>, docs: map<string, Document>)
    requires forall n :: n in names ==> n in docs
    ensures |names| == 0 ==> Context(question, names, docs) == NoDocuments
    ensures |names| > 0 ==>
      (|Context(question, names, docs)| == 0 <==>
        forall i :: 0 <= i < |Candidates(names, docs)| ==> Overlap(question, Candidates(names, docs)[i].chunk) == 0)
  {
    if |names| > 0 {
      var r := Ranked(question, names, docs);
      RankedSpec(question, names, docs);
      NothingCollectedIff(question, names, docs);
      var es := Entries(Top(r, TopCount));
      if |r| > 0 {
        JoinNonEmpty(es);
      }
    }
  }

  /** A chunk of a document is long, starts and ends with non-whitespace,
      and holds no blank line. */
  lemma {:induction false} ChunkMember(content: string, c: string)
    requires c in Chunks(content)
    ensures |c| > MinChunkLength && !IsSpace(c[0]) && !IsSpace(c[|c| - 1]) && NoBreak(c)
  {
    var k :| 0 <= k < |Chunks(content)| && Chunks(content)[k] == c;
    ChunkShape(content, k);
  }

  /** An entry for a chunk holds no blank line and does not end in a
      newline, provided the file name holds no blank line. */
  lemma {:induction false} EntryShape(m: Match)
    requires NoBreak(m.file) && NoBreak(m.content)
    requires |m.content| > 0 && !IsSpace(m.content[0]) && !IsSpace(m.content[|m.content| - 1])
    ensures NoBreak(Entry(m)) && !EndsInNewline(Entry(m))
  {
    var open, close := "[来自 ", "]:\n";
    assert NoBreak(open) by {
      forall i | 0 <= i < |open| ensures !BreakAt(open, i) {
      }
    }
    assert NoBreak(close) by {
      forall i | 0 <= i < |close| ensures !BreakAt(close, i) {
      }
    }
    NoBreakConcat(open, m.file);
    NoBreakConcat(open + m.file, close);
    assert IsSpace('\n');
    NoBreakConcat(open + m.file + close, m.content);
    assert Entry(m) == open + m.file + close + m.content;
  }

  /** The context can be taken apart again: splitting it on blank lines
      gives back the entries of the top five matches, in ranked order.
      This needs file names without blank lines and documents whose chunks
      are those of their content. */
  lemma {:induction false} ContextSplits(question: string, names: seq<string>, docs: map<string, Document>)
    requires forall n :: n in names ==> n in docs && NoBreak(n) && Consistent(n, docs[n])
    requires |Ranked(question, names, docs)| > 0
    ensures Split(Context(question, names, docs)) == Entries(Top(Ranked(question, names, docs), TopCount))
    ensures |Entries(Top(Ranked(question, names, docs), TopCount))| <= TopCount
  {
    var r := Ranked(question, names, docs);
    var top := Top(r, TopCount);
    var es := Entries(top);
    RankedFromDocuments(question, names, docs);
    assert r[0].file in names;
    forall k | 0 <= k < |es| ensures NoBreak(es[k]) && !EndsInNewline(es[k]) {
      var m := top[k];
      assert m == r[k];
      assert m in r;
      ChunkMember(docs[m.file].content, m.content);
      EntryShape(m);
    }
    SplitJoin(es);
  }
}
