/** The record app.py:167-172 stores for each uploaded file, and the two
    decisions it takes from the file name: which reader extracts the text
    (app.py:153-162) and what the file's type is (app.py:170). */
module Documents {
  import opened Chunker

  /** `{'content': ..., 'chunks': ..., 'type': ..., 'size': ...}` */
  datatype Document = Document(content: string, chunks: seq<string>, kind: string, size: nat)

  /** Python's `s.split(sep)` for a one-character separator. A single
      character cannot overlap itself, so cutting from the right gives the
      same pieces as Python's scan from the left. */
  function Pieces(s: string, sep: char): (ps: seq<string>)
    ensures |ps| >= 1
  {
    if |s| == 0 then [""]
    else
      var r := Pieces(s[..|s| - 1], sep);
      var c := s[|s| - 1];
      if c == sep then r + [""] else r[..|r| - 1] + [r[|r| - 1] + [c]]
  }

  /** Python's `sep.join(ps)` for a one-character separator. */
  function JoinOn(ps: seq<string>, sep: char): string
    requires |ps| >= 1
  {
    if |ps| == 1 then ps[0] else JoinOn(ps[..|ps| - 1], sep) + [sep] + ps[|ps| - 1]
  }

  /** Joining the pieces with the separator gives the text back. */
  lemma {:induction false} JoinPieces(s: string, sep: char)
    ensures JoinOn(Pieces(s, sep), sep) == s
  {
    if |s| > 0 {
      var init, c := s[..|s| - 1], s[|s| - 1];
      var r := Pieces(init, sep);
      JoinPieces(init, sep);
      assert s == init + [c];
      if c == sep {
        assert (r + [""])[..|r|] == r;
      } else {
        JoinOnExtendLast(r, sep, c);
      }
    }
  }

  /** Extending the last piece extends the joined text. */
  lemma {:induction false} JoinOnExtendLast(r: seq<string>, sep: char, c: char)
    requires |r| >= 1
    ensures JoinOn(r[..|r| - 1] + [r[|r| - 1] + [c]], sep) == JoinOn(r, sep) + [c]
  {
    var ps := r[..|r| - 1] + [r[|r| - 1] + [c]];
    assert ps[..|ps| - 1] == r[..|r| - 1];
  }

  /** The text after the last dot of `name`, or the whole name when
      there is no dot. */
  function Extension(name: string): string {
    if |name| == 0 || name[|name| - 1] == '.' then ""
    else Extension(name[..|name| - 1]) + [name[|name| - 1]]
  }

  /** `Extension` is `file.name.split('.')[-1]`, the last of the pieces. */
  lemma {:induction false} ExtensionIsLastPiece(name: string)
    ensures var ps := Pieces(name, '.');
      Extension(name) == ps[|ps| - 1]
  {
    if |name| > 0 {
      ExtensionIsLastPiece(name[..|name| - 1]);
    }
  }

  /** The type is a dot-free suffix of the name, preceded by a dot unless
      it is the whole name. */
  lemma {:induction false} ExtensionSpec(name: string)
    ensures var e := Extension(name);
      && |e| <= |name| && e == name[|name| - |e|..] && '.' !in e
      && (|e| == |name| || name[|name| - |e| - 1] == '.')
  {
    if |name| > 0 {
      var init, c := name[..|name| - 1], name[|name| - 1];
      if c != '.' {
        ExtensionSpec(init);
        assert name == init + [c];
        DotFreeSuffixSnoc(init, c, Extension(init));
      }
    }
  }

  /** A dot-free suffix after a dot stays one when a character other
      than a dot is appended to both. */
  lemma {:induction false} DotFreeSuffixSnoc(init: string, c: char, e0: string)
    requires c != '.' && |e0| <= |init| && e0 == init[|init| - |e0|..] && '.' !in e0
    requires |e0| == |init| || init[|init| - |e0| - 1] == '.'
    ensures var name, e := init + [c], e0 + [c];
      && |e| <= |name| && e == name[|name| - |e|..] && '.' !in e
      && (|e| == |name| || name[|name| - |e| - 1] == '.')
  {
    var name, e := init + [c], e0 + [c];
    assert name[|name| - |e|..] == init[|init| - |e0|..] + [c];
    if |e| < |name| {
      assert name[|name| - |e| - 1] == init[|init| - |e0| - 1];
    }
  }

  /** A name of the form `a + "." + x`, with no dot in `x`, has type `x`. */
  lemma {:induction false} ExtensionAfterDot(a: string, x: string)
    requires '.' !in x
    ensures Extension(a + "." + x) == x
  {
    if |x| == 0 {
      assert (a + ".")[|a + "."| - 1] == '.';
    } else {
      var y := x[..|x| - 1];
      assert (a + "." + x)[..|a + "." + x| - 1] == a + "." + y;
      assert '.' !in y by {
        assert forall k :: 0 <= k < |y| ==> y[k] == x[k];
      }
      ExtensionAfterDot(a, y);
      assert y + [x[|x| - 1]] == x;
    }
  }

  predicate EndsWith(s: string, suffix: string) {
    |suffix| <= |s| && s[|s| - |suffix|..] == suffix
  }

  /** How app.py:153-162 obtains the text of a file. */
  datatype Reader = PdfPages | DocxParagraphs | Utf8Text

  function ReaderFor(name: string): (r: Reader)
    ensures r == PdfPages <==> EndsWith(name, ".pdf")
    ensures r == DocxParagraphs <==> !EndsWith(name, ".pdf") && EndsWith(name, ".docx")
  {
    if EndsWith(name, ".pdf") then PdfPages
    else if EndsWith(name, ".docx") then DocxParagraphs
    else Utf8Text
  }

  /** The reader and the recorded type agree: a file read as PDF has type
      `pdf`, one read as Word has type `docx`. */
  lemma {:induction false} ReaderMatchesType(name: string)
    ensures ReaderFor(name) == PdfPages ==> Extension(name) == "pdf"
    ensures ReaderFor(name) == DocxParagraphs ==> Extension(name) == "docx"
  {
    if EndsWith(name, ".pdf") {
      var a := name[..|name| - 4];
      assert name == a + "." + "pdf";
      ExtensionAfterDot(a, "pdf");
    } else if EndsWith(name, ".docx") {
      var a := name[..|name| - 5];
      assert name == a + "." + "docx";
      ExtensionAfterDot(a, "docx");
    }
  }

  /** The record stored for a file `name` whose extracted text is
      `content`. */
  function Load(name: string, content: string): Document {
    Document(content, Chunks(content), Extension(name), |content|)
  }

  /** A stored record is the one `Load` builds from its own content. */
  predicate Consistent(name: string, d: Document) {
    d == Load(name, d.content)
  }
}
