/** Retrieval and ranking, app.py:245-264: every chunk of every document
    that shares a lower-cased word with the question is collected with
    the number of shared words as its relevance; the matches are sorted
    by relevance, highest first, keeping ties in collection order; and the
    best five, labelled with their file names, form the context. */
module Ranking {
  import opened Text
  import opened Paragraphs
  import opened Filtering
  import opened Chunker
  import opened Documents

  /** `{'file': ..., 'content': ..., 'relevance': ...}` */
  datatype Match = Match(file: string, content: string, relevance: nat)

  /** `set(ws)` */
  function Elements(ws: seq<string>): set<string> {
    set w | w in ws
  }

  lemma {:induction false} ElementsAppend(x: seq<string>, y: seq<string>)
    ensures Elements(x + y) == Elements(x) + Elements(y)
  {
    assert forall w :: w in x + y <==> w in x || w in y;
  }

  /** `set(s.lower().split())` */
  function Tokens(s: string): set<string> {
    Elements(Words(Lower(s)))
  }

  /** `len(prompt_words & chunk_words)` */
  function Overlap(question: string, chunk: string): nat {
    |Tokens(question) * Tokens(chunk)|
  }

  /** Lower-casing commutes with concatenation. */
  lemma {:induction false} LowerAppend(a: string, b: string)
    ensures Lower(a + b) == Lower(a) + Lower(b)
  {
    var l, r := Lower(a + b), Lower(a) + Lower(b);
    assert |l| == |r|;
    forall i | 0 <= i < |l| ensures l[i] == r[i] {
      if i < |a| {
        assert (a + b)[i] == a[i];
      } else {
        assert (a + b)[i] == b[i - |a|];
      }
    }
  }

  /** The words of two texts joined by a space are the words of each:
      a chunk's vocabulary is the union of its parts' vocabularies. */
  lemma {:induction false} TokensAppend(a: string, b: string)
    ensures Tokens(a + " " + b) == Tokens(a) + Tokens(b)
  {
    var la, lb := Lower(a), Lower(b);
    calc {
      Tokens(a + " " + b);
      Elements(Words(Lower(a + " " + b)));
      { LowerAppend(a + " ", b); LowerAppend(a, " "); assert Lower(" ") == " "; }
      Elements(Words(la + " " + lb));
      { WordsAroundSpace(la, lb); }
      Elements(Words(la) + Words(lb));
      { ElementsAppend(Words(la), Words(lb)); }
      Tokens(a) + Tokens(b);
    }
  }

  /** Adding text to a chunk never lowers its relevance. */
  lemma {:induction false} OverlapGrows(question: string, chunk: string, more: string)
    ensures Overlap(question, chunk) <= Overlap(question, chunk + " " + more)
  {
    TokensAppend(chunk, more);
    var q := Tokens(question);
    SubsetCard(q * Tokens(chunk), q * Tokens(chunk + " " + more));
  }

  lemma {:induction false} SubsetCard<T>(a: set<T>, b: set<T>)
    requires a <= b
    ensures |a| <= |b|
  {
    if a != {} {
      var x :| x in a;
      SubsetCard(a - {x}, b - {x});
    }
  }

  /** One chunk of one document, as the nested loops visit it. */
  datatype Candidate = Candidate(file: string, chunk: string)

  function Pairs(file: string, chunks: seq<string>): (r: seq<Candidate>)
    ensures |r| == |chunks|
    ensures forall k :: 0 <= k < |chunks| ==> r[k] == Candidate(file, chunks[k])
  {
    seq(|chunks|, k requires 0 <= k < |chunks| => Candidate(file, chunks[k]))
  }

  /** All chunks of all documents: documents in insertion order, and each
      document's chunks in order. */
  function Candidates(names: seq<string>, docs: map<string, Document>): seq<Candidate>
    requires forall n :: n in names ==> n in docs
  {
    if |names| == 0 then []
    else
      var last := names[|names| - 1];
      Candidates(names[..|names| - 1], docs) + Pairs(last, docs[last].chunks)
  }

  /** The number of chunks over all documents (app.py:211). */
  function ChunkCount(names: seq<string>, docs: map<string, Document>): nat
    requires forall n :: n in names ==> n in docs
  {
    if |names| == 0 then 0
    else ChunkCount(names[..|names| - 1], docs) + |docs[names[|names| - 1]].chunks|
  }

  /** The loops visit every stored chunk once. */
  lemma {:induction false} CandidatesCount(names: seq<string>, docs: map<string, Document>)
    requires forall n :: n in names ==> n in docs
    ensures |Candidates(names, docs)| == ChunkCount(names, docs)
  {
    if |names| > 0 {
      CandidatesCount(names[..|names| - 1], docs);
    }
  }

  /** Every candidate is a chunk of a named document, and every chunk of
      a named document is a candidate. */
  lemma {:induction false} CandidatesSpec(names: seq<string>, docs: map<string, Document>)
    requires forall n :: n in names ==> n in docs
    ensures forall i :: 0 <= i < |Candidates(names, docs)| ==>
      var c := Candidates(names, docs)[i]; c.file in names && c.chunk in docs[c.file].chunks
    ensures forall n, c :: n in names && c in docs[n].chunks ==> Candidate(n, c) in Candidates(names, docs)
  {
    if |names| > 0 {
      var init, last := names[..|names| - 1], names[|names| - 1];
      CandidatesSpec(init, docs);
      var front, back := Candidates(init, docs), Pairs(last, docs[last].chunks);
      var cs := Candidates(names, docs);
      assert cs == front + back;
      forall i | 0 <= i < |cs| ensures cs[i].file in names && cs[i].chunk in docs[cs[i].file].chunks {
        if i < |front| {
          assert cs[i] == front[i];
          assert front[i].file in init;
        } else {
          assert cs[i] == back[i - |front|];
        }
      }
      forall n, c | n in names && c in docs[n].chunks ensures Candidate(n, c) in cs {
        if n == last {
          var k :| 0 <= k < |docs[n].chunks| && docs[n].chunks[k] == c;
          assert cs[|front| + k] == back[k];
        } else {
          var j :| 0 <= j < |names| && names[j] == n;
          assert n in init by {
            assert j < |names| - 1;
            assert init[j] == n;
          }
          var i :| 0 <= i < |front| && front[i] == Candidate(n, c);
          assert cs[i] == front[i];
        }
      }
    }
  }

  /** The filter at app.py:250-257, on one candidate. */
  function Score(question: string): Candidate -> Option<Match> {
    (c: Candidate) =>
      var r := Overlap(question, c.chunk);
      if r > 0 then Some(Match(c.file, c.chunk, r)) else None
  }

  /** `relevant_chunks` once the loops are done. */
  function Collected(question: string, names: seq<string>, docs: map<string, Document>): seq<Match>
    requires forall n :: n in names ==> n in docs
  {
    FilterMap(Candidates(names, docs), Score(question))
  }

  /** Each collected match carries its chunk's true relevance, which is
      at least 1; it comes from the candidate at the kept position; the
      kept positions increase, so every candidate is collected at most
      once and in visiting order; and a candidate is collected exactly
      when it shares a word with the question. */
  lemma {:induction false} CollectedSpec(question: string, names: seq<string>, docs: map<string, Document>)
    requires forall n :: n in names ==> n in docs
    ensures var cs, idx, ms := Candidates(names, docs), KeptIndices(Candidates(names, docs), Score(question)), Collected(question, names, docs);
      && |idx| == |ms|
      && (forall k :: 0 <= k < |ms| ==>
            && idx[k] < |cs|
            && ms[k] == Match(cs[idx[k]].file, cs[idx[k]].chunk, Overlap(question, cs[idx[k]].chunk))
            && ms[k].relevance >= 1)
      && (forall k, l :: 0 <= k < l < |idx| ==> idx[k] < idx[l])
      && (forall i :: 0 <= i < |cs| ==> (Overlap(question, cs[i].chunk) > 0 <==> i in idx))
  {
    var cs := Candidates(names, docs);
    var f := Score(question);
    FilterMapSpec(cs, f);
    var idx := KeptIndices(cs, f);
    forall i | 0 <= i < |cs| ensures f(cs[i]).Some? <==> Overlap(question, cs[i].chunk) > 0 {
    }
  }

  /** Nothing is collected exactly when no chunk shares a word with the
      question. */
  lemma {:induction false} NothingCollectedIff(question: string, names: seq<string>, docs: map<string, Document>)
    requires forall n :: n in names ==> n in docs
    ensures |Collected(question, names, docs)| == 0 <==>
      forall i :: 0 <= i < |Candidates(names, docs)| ==> Overlap(question, Candidates(names, docs)[i].chunk) == 0
  {
    var cs, ms := Candidates(names, docs), Collected(question, names, docs);
    var idx := KeptIndices(cs, Score(question));
    CollectedSpec(question, names, docs);
    if |ms| > 0 {
      assert Overlap(question, cs[idx[0]].chunk) > 0;
    } else {
      forall i | 0 <= i < |cs| ensures Overlap(question, cs[i].chunk) == 0 {
        assert i !in idx;
      }
    }
  }

  /** Every collected match is a chunk of the document it names. */
  lemma {:induction false} CollectedFromDocuments(question: string, names: seq<string>, docs: map<string, Document>)
    requires forall n :: n in names ==> n in docs
    ensures forall m :: m in Collected(question, names, docs) ==>
      m.file in names && m.content in docs[m.file].chunks && m.relevance == Overlap(question, m.content) >= 1
  {
    var cs, ms := Candidates(names, docs), Collected(question, names, docs);
    var idx := KeptIndices(cs, Score(question));
    CollectedSpec(question, names, docs);
    CandidatesSpec(names, docs);
    forall m | m in ms ensures m.file in names && m.content in docs[m.file].chunks && m.relevance == Overlap(question, m.content) >= 1 {
      var k :| 0 <= k < |ms| && ms[k] == m;
      assert cs[idx[k]].file in names;
    }
  }

  lemma {:induction false} FilterMapAppend<A, B>(s: seq<A>, t: seq<A>, f: A -> Option<B>)
    ensures FilterMap(s + t, f) == FilterMap(s, f) + FilterMap(t, f)
    decreases |t|
  {
    if |t| > 0 {
      var init, x := t[..|t| - 1], t[|t| - 1];
      assert s + t == (s + init) + [x];
      assert t == init + [x];
      FilterMapSnoc(s + init, x, f);
      FilterMapSnoc(init, x, f);
      FilterMapAppend(s, init, f);
    } else {
      assert s + t == s;
    }
  }

  /** Visiting one more chunk of a document appends at most its match. */
  lemma {:induction false} PairsStep(question: string, name: string, chunks: seq<string>, j: nat)
    requires j < |chunks|
    ensures var r := Overlap(question, chunks[j]);
      FilterMap(Pairs(name, chunks[..j + 1]), Score(question)) ==
      FilterMap(Pairs(name, chunks[..j]), Score(question)) + if r > 0 then [Match(name, chunks[j], r)] else []
  {
    assert Pairs(name, chunks[..j + 1]) == Pairs(name, chunks[..j]) + [Candidate(name, chunks[j])];
    FilterMapSnoc(Pairs(name, chunks[..j]), Candidate(name, chunks[j]), Score(question));
  }

  /** Visiting one more document appends the matches among its chunks. */
  lemma {:induction false} NamesStep(question: string, names: seq<string>, docs: map<string, Document>, i: nat)
    requires forall n :: n in names ==> n in docs
    requires i < |names|
    ensures Collected(question, names[..i + 1], docs) ==
      Collected(question, names[..i], docs) + FilterMap(Pairs(names[i], docs[names[i]].chunks), Score(question))
  {
    assert names[..i + 1][..i] == names[..i];
    FilterMapAppend(Candidates(names[..i], docs), Pairs(names[i], docs[names[i]].chunks), Score(question));
  }

  /** The inner loop of app.py:249-257, over the chunks of one document;
      `questionWords` is the question's word set, computed once at
      app.py:247. */
  method MatchesIn(question: string, questionWords: set<string>, name: string, chunks: seq<string>)
    returns (found: seq<Match>)
    requires questionWords == Tokens(question)
    ensures found == FilterMap(Pairs(name, chunks), Score(question))
  {
    found := [];
    for j := 0 to |chunks|
      invariant found == FilterMap(Pairs(name, chunks[..j]), Score(question))
    {
      var chunkWords := Tokens(chunks[j]);
      var overlap := |questionWords * chunkWords|;
      PairsStep(question, name, chunks, j);
      if overlap > 0 {
        found := found + [Match(name, chunks[j], overlap)];
      }
    }
    assert chunks[..|chunks|] == chunks;
  }

  /** The nested loops of app.py:247-257. */
  method CollectMatches(question: string, names: seq<string>, docs: map<string, Document>) returns (matches: seq<Match>)
    requires forall n :: n in names ==> n in docs
    ensures matches == Collected(question, names, docs)
  {
    var questionWords := Tokens(question);
    matches := [];
    for i := 0 to |names|
      invariant matches == Collected(question, names[..i], docs)
    {
      var found := MatchesIn(question, questionWords, names[i], docs[names[i]].chunks);
      NamesStep(question, names, docs, i);
      matches := matches + found;
    }
    assert names[..|names|] == names;
  }

  /** Relevances never increase along `ms`. */
  predicate NonIncreasing(ms: seq<Match>) {
    forall i, j :: 0 <= i < j < |ms| ==> ms[i].relevance >= ms[j].relevance
  }

  /** Puts `x` after every element at least as relevant, so that it
      lands behind the equally relevant ones already placed. */
  function Insert(s: seq<Match>, x: Match): seq<Match> {
    if |s| == 0 then [x]
    else if s[0].relevance >= x.relevance then [s[0]] + Insert(s[1..], x)
    else [x] + s
  }

  /** `relevant_chunks.sort(key=lambda x: x['relevance'], reverse=True)`,
      Python's stable sort, written as an insertion sort. */
  function SortByRelevance(ms: seq<Match>): seq<Match> {
    if |ms| == 0 then []
    else Insert(SortByRelevance(ms[..|ms| - 1]), ms[|ms| - 1])
  }

  /** The matches of relevance `v`, in order. */
  function WithRelevance(ms: seq<Match>, v: nat): seq<Match> {
    if |ms| == 0 then []
    else (if ms[0].relevance == v then [ms[0]] else []) + WithRelevance(ms[1..], v)
  }

  lemma {:induction false} InsertSorted(s: seq<Match>, x: Match)
    requires NonIncreasing(s)
    ensures NonIncreasing(Insert(s, x))
    ensures |Insert(s, x)| == |s| + 1
    ensures |s| > 0 ==> Insert(s, x)[0] == s[0] || Insert(s, x)[0] == x
    decreases |s|
  {
    if |s| > 0 && s[0].relevance >= x.relevance {
      var t := s[1..];
      assert NonIncreasing(t) by {
        forall i, j | 0 <= i < j < |t| ensures t[i].relevance >= t[j].relevance {
          assert t[i] == s[i + 1] && t[j] == s[j + 1];
        }
      }
      InsertSorted(t, x);
      var r := Insert(t, x);
      assert |t| > 0 ==> s[0].relevance >= t[0].relevance by {
        if |t| > 0 {
          assert t[0] == s[1];
        }
      }
      var u := [s[0]] + r;
      forall i, j | 0 <= i < j < |u| ensures u[i].relevance >= u[j].relevance {
        if i > 0 {
          assert u[i] == r[i - 1] && u[j] == r[j - 1];
        } else {
          assert u[j] == r[j - 1];
          InsertBound(t, x, s[0].relevance, j - 1);
        }
      }
    }
  }

  /** An upper bound on `s` and on `x` bounds every element of `Insert(s, x)`. */
  lemma {:induction false} InsertBound(s: seq<Match>, x: Match, b: nat, k: nat)
    requires NonIncreasing(s)
    requires (|s| == 0 || s[0].relevance <= b) && x.relevance <= b
    requires k < |Insert(s, x)|
    ensures Insert(s, x)[k].relevance <= b
  {
    InsertPerm(s, x);
    var r := Insert(s, x);
    assert r[k] in multiset(r);
    if r[k] != x {
      assert r[k] in multiset(s);
      var i :| 0 <= i < |s| && s[i] == r[k];
      assert s[0].relevance >= s[i].relevance;
    }
  }

  lemma {:induction false} InsertPerm(s: seq<Match>, x: Match)
    ensures multiset(Insert(s, x)) == multiset(s) + multiset{x}
    decreases |s|
  {
    if |s| > 0 {
      assert s == [s[0]] + s[1..];
      if s[0].relevance >= x.relevance {
        InsertPerm(s[1..], x);
      }
    }
  }

  /** The sort puts the matches in non-increasing order of relevance. */
  lemma {:induction false} SortSorted(ms: seq<Match>)
    ensures NonIncreasing(SortByRelevance(ms)) && |SortByRelevance(ms)| == |ms|
  {
    if |ms| > 0 {
      SortSorted(ms[..|ms| - 1]);
      InsertSorted(SortByRelevance(ms[..|ms| - 1]), ms[|ms| - 1]);
    }
  }

  /** The sort rearranges the matches and neither adds nor drops one. */
  lemma {:induction false} SortPermutation(ms: seq<Match>)
    ensures multiset(SortByRelevance(ms)) == multiset(ms)
  {
    if |ms| > 0 {
      var init := ms[..|ms| - 1];
      SortPermutation(init);
      InsertPerm(SortByRelevance(init), ms[|ms| - 1]);
      assert ms == init + [ms[|ms| - 1]];
    }
  }

  lemma {:induction false} WithRelevanceAppend(s: seq<Match>, x: Match, v: nat)
    ensures WithRelevance(s + [x], v) == WithRelevance(s, v) + if x.relevance == v then [x] else []
    decreases |s|
  {
    if |s| > 0 {
      var head := if s[0].relevance == v then [s[0]] else [];
      var tail := if x.relevance == v then [x] else [];
      assert (s + [x])[0] == s[0];
      assert (s + [x])[1..] == s[1..] + [x];
      WithRelevanceAppend(s[1..], x, v);
      ConcatAssoc(head, WithRelevance(s[1..], v), tail);
    }
  }

  /** No element of a sorted sequence that starts below `v` has relevance `v`. */
  lemma {:induction false} WithRelevanceBelow(s: seq<Match>, v: nat)
    requires NonIncreasing(s) && |s| > 0 && s[0].relevance < v
    ensures |WithRelevance(s, v)| == 0
    decreases |s|
  {
    if |s| > 1 {
      var t := s[1..];
      assert t[0] == s[1];
      assert NonIncreasing(t) by {
        forall i, j | 0 <= i < j < |t| ensures t[i].relevance >= t[j].relevance {
          assert t[i] == s[i + 1] && t[j] == s[j + 1];
        }
      }
      WithRelevanceBelow(t, v);
    }
  }

  lemma {:induction false} InsertStable(s: seq<Match>, x: Match, v: nat)
    requires NonIncreasing(s)
    ensures WithRelevance(Insert(s, x), v) == WithRelevance(s, v) + if x.relevance == v then [x] else []
    decreases |s|
  {
    if |s| == 0 {
      WithRelevanceCons(x, [], v);
    } else if s[0].relevance >= x.relevance {
      var t := s[1..];
      NonIncreasingTail(s);
      InsertStable(t, x, v);
      WithRelevanceCons(s[0], Insert(t, x), v);
      ConcatAssoc(if s[0].relevance == v then [s[0]] else [], WithRelevance(t, v), if x.relevance == v then [x] else []);
    } else {
      WithRelevanceCons(x, s, v);
      if x.relevance == v {
        WithRelevanceBelow(s, v);
      }
    }
  }

  lemma {:induction false} WithRelevanceCons(y: Match, t: seq<Match>, v: nat)
    ensures WithRelevance([y] + t, v) == (if y.relevance == v then [y] else []) + WithRelevance(t, v)
  {
    assert ([y] + t)[1..] == t;
  }

  lemma {:induction false} NonIncreasingTail(s: seq<Match>)
    requires NonIncreasing(s) && |s| > 0
    ensures NonIncreasing(s[1..])
  {
    var t := s[1..];
    forall i, j | 0 <= i < j < |t| ensures t[i].relevance >= t[j].relevance {
      assert t[i] == s[i + 1] && t[j] == s[j + 1];
    }
  }

  /** The sort is stable: among matches of equal relevance the order of
      collection, document by document and chunk by chunk, survives. */
  lemma {:induction false} SortStable(ms: seq<Match>, v: nat)
    ensures WithRelevance(SortByRelevance(ms), v) == WithRelevance(ms, v)
  {
    if |ms| > 0 {
      var init, x := ms[..|ms| - 1], ms[|ms| - 1];
      SortStable(init, v);
      SortSorted(init);
      InsertStable(SortByRelevance(init), x, v);
      assert ms == init + [x];
      WithRelevanceAppend(init, x, v);
    }
  }
}
