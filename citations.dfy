/** The source list appended to a successful answer, app.py:306-310:
    when anything was collected, a header and the first two ranked
    matches, numbered from 1, each with its file name and the first 100
    characters of its chunk followed by "...". */
module Citations {
  import opened Text
  import opened Ranking
  import opened Retrieval

  /** `"\n\n---\n📖 **参考来源**\n"` ("reference sources"). */
  const Header := "\n\n---\n\U{1F4D6} **参考来源**\n"

  /** `relevant_chunks[:2]` */
  const MaxCitations := 2

  /** `chunk['content'][:100]` */
  const PreviewLength := 100

  function Preview(content: string): string {
    Top(content, PreviewLength) + "..."
  }

  /** A chunk's preview is its first 100 characters, or all of it when it
      is shorter, followed by "...". */
  lemma {:induction false} PreviewSpec(content: string)
    ensures var p := Preview(content);
      && |p| == (if |content| < PreviewLength then |content| else PreviewLength) + 3
      && p[..|p| - 3] == content[..|p| - 3]
      && p[|p| - 3..] == "..."
      && (|content| <= PreviewLength ==> p == content + "...")
  {
    var p := Preview(content);
    assert p[..|p| - 3] == Top(content, PreviewLength);
  }

  /** `f"{i}. {chunk['file']}: {preview}\n"` */
  function CitationLine(i: nat, m: Match): string {
    DecimalString(i) + ". " + m.file + ": " + Preview(m.content) + "\n"
  }

  /** The number a line carries can be read back from its leading digits. */
  lemma {:induction false} CitationLineNumber(i: nat, m: Match)
    ensures var line, d := CitationLine(i, m), DecimalString(i);
      && |d| + 2 <= |line| && line[..|d|] == d && line[|d|..|d| + 2] == ". "
      && IsDigits(d) && DecimalValue(d) == i
  {
    var d := DecimalString(i);
    var line := CitationLine(i, m);
    assert line == d + (". " + m.file + ": " + Preview(m.content) + "\n");
    DecimalRoundTrip(i);
  }

  /** The lines for `ms`, numbered 1, 2, ... in order
      (`enumerate(..., 1)`). */
  function CitationLines(ms: seq<Match>): string {
    if |ms| == 0 then ""
    else CitationLines(ms[..|ms| - 1]) + CitationLine(|ms|, ms[|ms| - 1])
  }

  lemma {:induction false} CitationLinesSnoc(ms: seq<Match>, i: nat)
    requires i < |ms|
    ensures CitationLines(ms[..i + 1]) == CitationLines(ms[..i]) + CitationLine(i + 1, ms[i])
  {
    assert ms[..i + 1][..i] == ms[..i];
  }

  /** The answer as shown and stored after a successful call. */
  function WithCitations(answer: string, ranked: seq<Match>): string {
    if |ranked| == 0 then answer
    else answer + Header + CitationLines(Top(ranked, MaxCitations))
  }

  /** app.py:306-310: `answer += ...` once for the header and once per
      cited match. */
  method AppendCitations(answer: string, ranked: seq<Match>) returns (r: string)
    ensures r == WithCitations(answer, ranked)
  {
    r := answer;
    if |ranked| > 0 {
      r := r + Header;
      var top := Top(ranked, MaxCitations);
      for i := 0 to |top|
        invariant r == answer + Header + CitationLines(top[..i])
      {
        r := r + CitationLine(i + 1, top[i]);
        CitationLinesSnoc(top, i);
      }
      assert top[..|top|] == top;
    }
  }

  /** The answer is kept as it came; nothing is added when nothing was
      collected; otherwise the header follows, then one line for the best
      match numbered 1 and, when there is a second, one for it numbered 2,
      and nothing else. */
  lemma {:induction false} CitationsCases(answer: string, ranked: seq<Match>)
    ensures |ranked| == 0 ==> WithCitations(answer, ranked) == answer
    ensures |ranked| == 1 ==> WithCitations(answer, ranked) == answer + Header + CitationLine(1, ranked[0])
    ensures |ranked| >= 2 ==>
      WithCitations(answer, ranked) == answer + Header + CitationLine(1, ranked[0]) + CitationLine(2, ranked[1])
  {
    if |ranked| > 0 {
      var top := Top(ranked, MaxCitations);
      assert top[..1] == [ranked[0]];
      assert CitationLines(top[..1]) == CitationLine(1, ranked[0]);
      if |ranked| >= 2 {
        assert top[..|top| - 1] == top[..1];
        assert CitationLines(top) == CitationLines(top[..1]) + CitationLine(2, ranked[1]);
        ConcatAssoc(answer + Header, CitationLine(1, ranked[0]), CitationLine(2, ranked[1]));
      }
    }
  }
}
