/** The paragraph chunker of app.py:165: the text is split on blank
    lines, each piece is stripped, and only stripped pieces longer than
    50 characters are kept. There is no other chunking stage, so a text
    without a long paragraph has no chunks at all. */
module Chunker {
  import opened Text
  import opened Paragraphs
  import opened Filtering

  /** A chunk must be longer than this many characters. */
  const MinChunkLength := 50

  /** One piece of the split, as the comprehension treats it. */
  function Paragraph(segment: string): Option<string> {
    var t := Strip(segment);
    if |t| > MinChunkLength then Some(t) else None
  }

  lemma {:induction false} ParagraphIff(segment: string)
    ensures Paragraph(segment).Some? <==> |Strip(segment)| > MinChunkLength
    ensures Paragraph(segment).Some? ==> Paragraph(segment).value == Strip(segment)
  {
  }

  /** `[c.strip() for c in content.split('\n\n') if len(c.strip()) > 50]` */
  function Chunks(content: string): seq<string> {
    FilterMap(Split(content), Paragraph)
  }

  /** The chunks are exactly the stripped pieces longer than 50
      characters, each taken once, in the order of their pieces. */
  lemma {:induction false} ChunksSpec(content: string)
    ensures var segs, idx, cs := Split(content), KeptIndices(Split(content), Paragraph), Chunks(content);
      && |idx| == |cs|
      && (forall k :: 0 <= k < |cs| ==> idx[k] < |segs| && cs[k] == Strip(segs[idx[k]]) && |cs[k]| > MinChunkLength)
      && (forall k, l :: 0 <= k < l < |idx| ==> idx[k] < idx[l])
      && (forall i :: 0 <= i < |segs| ==> (|Strip(segs[i])| > MinChunkLength <==> i in idx))
  {
    var segs := Split(content);
    FilterMapSpec(segs, Paragraph);
    var idx := KeptIndices(segs, Paragraph);
    forall k | 0 <= k < |idx| ensures Paragraph(segs[idx[k]]) == Some(Strip(segs[idx[k]])) {
      ParagraphIff(segs[idx[k]]);
    }
    forall i | 0 <= i < |segs| ensures Paragraph(segs[i]).Some? <==> |Strip(segs[i])| > MinChunkLength {
      ParagraphIff(segs[i]);
    }
  }

  /** A text has no chunks exactly when none of its paragraphs is longer
      than 50 characters once stripped. */
  lemma {:induction false} NoChunksIff(content: string)
    ensures |Chunks(content)| == 0 <==>
      forall i :: 0 <= i < |Split(content)| ==> |Strip(Split(content)[i])| <= MinChunkLength
  {
    var segs, idx, cs := Split(content), KeptIndices(Split(content), Paragraph), Chunks(content);
    ChunksSpec(content);
    if |cs| > 0 {
      assert |Strip(segs[idx[0]])| > MinChunkLength;
    } else {
      forall i | 0 <= i < |segs| ensures |Strip(segs[i])| <= MinChunkLength {
        assert i !in idx;
      }
    }
  }

  /** A whitespace-only text (the empty text among them) has no chunks. */
  lemma {:induction false} BlankHasNoChunks(content: string)
    requires AllSpace(content)
    ensures |Chunks(content)| == 0
  {
    var segs := Split(content);
    JoinSplit(content);
    forall i | 0 <= i < |segs| ensures |Strip(segs[i])| <= MinChunkLength {
      JoinHolds(segs, i);
      StripShrinks(segs[i]);
    }
    NoChunksIff(content);
  }

  /** Each piece of a joined text is within the text. */
  lemma {:induction false} JoinHolds(ps: seq<string>, i: nat)
    requires i < |ps|
    ensures |ps[i]| <= |Join(ps)|
    ensures AllSpace(Join(ps)) ==> AllSpace(ps[i])
    decreases |ps|
  {
    if |ps| > 1 {
      var j := Join(ps);
      assert j == ps[0] + "\n\n" + Join(ps[1..]);
      if i == 0 {
        assert forall k :: 0 <= k < |ps[0]| ==> ps[0][k] == j[k];
      } else {
        JoinHolds(ps[1..], i - 1);
        var off := |ps[0]| + 2;
        assert forall k :: 0 <= k < |Join(ps[1..])| ==> Join(ps[1..])[k] == j[off + k];
      }
    }
  }

  lemma {:induction false} StripShrinks(s: string)
    requires AllSpace(s)
    ensures |Strip(s)| == 0
  {
    StripEmptyIff(s);
  }

  /** Part of a separator-free text is separator-free. */
  lemma {:induction false} NoBreakSlice(s: string, i: nat, j: nat)
    requires i <= j <= |s| && NoBreak(s)
    ensures NoBreak(s[i..j])
  {
    var t := s[i..j];
    forall k | 0 <= k < |t| ensures !BreakAt(t, k) {
      assert !BreakAt(s, i + k);
    }
  }

  /** The shape of every chunk: longer than 50 characters, starting and
      ending with a non-whitespace character, and holding no blank-line
      separator. */
  lemma {:induction false} ChunkShape(content: string, k: nat)
    requires k < |Chunks(content)|
    ensures var c := Chunks(content)[k];
      && |c| > MinChunkLength && !IsSpace(c[0]) && !IsSpace(c[|c| - 1]) && NoBreak(c)
  {
    var segs := Split(content);
    FilterMapSpec(segs, Paragraph);
    SplitSeparable(content);
    var idx := KeptIndices(segs, Paragraph);
    ParagraphShape(segs[idx[k]]);
  }

  /** The paragraph kept from a separator-free segment has that shape. */
  lemma {:induction false} ParagraphShape(seg: string)
    requires NoBreak(seg) && Paragraph(seg).Some?
    ensures var c := Paragraph(seg).value;
      && |c| > MinChunkLength && !IsSpace(c[0]) && !IsSpace(c[|c| - 1]) && NoBreak(c)
  {
    ParagraphIff(seg);
    var c := Strip(seg);
    var i := |seg| - |TrimStart(seg)|;
    StripIsInfix(seg);
    NoBreakSlice(seg, i, i + |c|);
  }
}
