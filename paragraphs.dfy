/** Splitting a text on blank lines and joining pieces with blank lines:
    Python's `str.split("\n\n")` and `"\n\n".join(...)`, the two ends of
    the chunker and of the context assembly. */
module Paragraphs {

  /** There is a separator `"\n\n"` starting at position `i` of `s`. */
  predicate BreakAt(s: string, i: int) {
    0 <= i && i + 1 < |s| && s[i] == '\n' && s[i + 1] == '\n'
  }

  predicate NoBreak(s: string) {
    forall i :: 0 <= i < |s| ==> !BreakAt(s, i)
  }

  predicate EndsInNewline(s: string) {
    |s| > 0 && s[|s| - 1] == '\n'
  }

  /** The pieces `Join` can put together so that `Split` takes them
      apart again: none holds a separator, and none but the last ends in
      a newline (which would make a separator start one place early). */
  predicate Separable(ps: seq<string>) {
    && (forall k :: 0 <= k < |ps| ==> NoBreak(ps[k]))
    && (forall k :: 0 <= k < |ps| - 1 ==> !EndsInNewline(ps[k]))
  }

  /** Python's `s.split("\n\n")`: scanning from the left, the text is cut
      at every separator that does not overlap an earlier one. There is
      always at least one piece. */
  function Split(s: string): (ps: seq<string>)
    ensures |ps| >= 1
    decreases |s|
  {
    if |s| < 2 then [s]
    else if s[0] == '\n' && s[1] == '\n' then [""] + Split(s[2..])
    else
      var r := Split(s[1..]);
      [[s[0]] + r[0]] + r[1..]
  }

  /** The first piece is a prefix of `s`; it is all of `s` when it is the
      only piece, and a separator follows it otherwise. */
  lemma {:induction false} SplitFirst(s: string)
    ensures var ps := Split(s);
      && |ps[0]| <= |s| && ps[0] == s[..|ps[0]|]
      && (|ps| == 1 ==> ps[0] == s)
      && (|ps| > 1 ==> BreakAt(s, |ps[0]|))
    decreases |s|
  {
    if |s| >= 2 && !(s[0] == '\n' && s[1] == '\n') {
      SplitFirst(s[1..]);
      var r := Split(s[1..]);
      assert [s[0]] + r[0] == s[..|r[0]| + 1];
    }
  }

  /** Python's `"\n\n".join(ps)`. */
  function Join(ps: seq<string>): string {
    if |ps| == 0 then ""
    else if |ps| == 1 then ps[0]
    else ps[0] + "\n\n" + Join(ps[1..])
  }

  /** Joining the pieces of a split gives back the text. */
  lemma {:induction false} JoinSplit(s: string)
    ensures Join(Split(s)) == s
    decreases |s|
  {
    if |s| < 2 {
    } else if s[0] == '\n' && s[1] == '\n' {
      JoinSplit(s[2..]);
      assert s == "\n\n" + s[2..];
    } else {
      JoinSplit(s[1..]);
      JoinCons(s[0], Split(s[1..]));
      assert s == [s[0]] + s[1..];
    }
  }

  /** Putting a character in front of the first piece puts it in front
      of the joined text. */
  lemma {:induction false} JoinCons(c: char, r: seq<string>)
    requires |r| >= 1
    ensures Join([[c] + r[0]] + r[1..]) == [c] + Join(r)
  {
    var ps := [[c] + r[0]] + r[1..];
    if |r| > 1 {
      assert ps[1..] == r[1..];
    }
  }

  /** Every piece of a split is free of separators, and no piece but the
      last ends in a newline. */
  lemma {:induction false} SplitSeparable(s: string)
    ensures Separable(Split(s))
    decreases |s|
  {
    var ps := Split(s);
    if |s| < 2 {
      assert ps == [s];
      assert !BreakAt(s, 0) && !BreakAt(s, 1);
    } else if s[0] == '\n' && s[1] == '\n' {
      SplitSeparable(s[2..]);
      assert ps == [""] + Split(s[2..]);
    } else {
      var r := Split(s[1..]);
      SplitSeparable(s[1..]);
      SplitFirst(s[1..]);
      var p := [s[0]] + r[0];
      assert ps == [p] + r[1..];
      assert |r[0]| > 0 ==> r[0][0] == s[1];
      assert NoBreak([s[0]]);
      NoBreakConcat([s[0]], r[0]);
      if |r| > 1 {
        assert BreakAt(s[1..], |r[0]|);
        if |r[0]| > 0 {
          assert !EndsInNewline(r[0]);
        }
      }
      SeparableNewHead(p, r);
    }
  }

  /** Replacing the first piece by a separator-free one that ends in no
      newline (unless it is the last) keeps the pieces separable. */
  lemma {:induction false} SeparableNewHead(p: string, r: seq<string>)
    requires |r| >= 1 && Separable(r) && NoBreak(p) && (|r| > 1 ==> !EndsInNewline(p))
    ensures Separable([p] + r[1..])
  {
    var ps := [p] + r[1..];
    forall k | 1 <= k < |ps| ensures NoBreak(ps[k]) && (k < |ps| - 1 ==> !EndsInNewline(ps[k])) {
      assert ps[k] == r[k];
    }
  }

  /** A separator-free text is a single piece. */
  lemma {:induction false} SplitWhole(p: string)
    requires NoBreak(p)
    ensures Split(p) == [p]
    decreases |p|
  {
    if |p| >= 2 {
      assert !BreakAt(p, 0);
      assert NoBreak(p[1..]) by {
        forall i | 0 <= i < |p[1..]| ensures !BreakAt(p[1..], i) {
          assert !BreakAt(p, i + 1);
        }
      }
      SplitWhole(p[1..]);
      assert [p[0]] + p[1..] == p;
    }
  }

  /** A separator right after a separator-free piece that does not end
      in a newline is where the first cut falls. */
  lemma {:induction false} SplitAfterPiece(p: string, t: string)
    requires NoBreak(p) && !EndsInNewline(p)
    ensures Split(p + "\n\n" + t) == [p] + Split(t)
    decreases |p|
  {
    var s := p + "\n\n" + t;
    if |p| == 0 {
      assert s == "\n\n" + t;
      assert s[2..] == t;
    } else {
      var q := p[1..];
      assert s[1..] == q + "\n\n" + t;
      assert !(s[0] == '\n' && s[1] == '\n') by {
        if |q| > 0 {
          assert !BreakAt(p, 0);
        } else {
          assert p == [p[0]];
        }
      }
      assert NoBreak(q) by {
        forall i | 0 <= i < |q| ensures !BreakAt(q, i) {
          assert !BreakAt(p, i + 1);
        }
      }
      assert |q| > 0 ==> q[|q| - 1] == p[|p| - 1];
      SplitAfterPiece(q, t);
      assert [p[0]] + q == p;
    }
  }

  /** Splitting what `Join` put together gives back the pieces. */
  lemma {:induction false} SplitJoin(ps: seq<string>)
    requires |ps| > 0 && Separable(ps)
    ensures Split(Join(ps)) == ps
    decreases |ps|
  {
    if |ps| == 1 {
      SplitWhole(ps[0]);
    } else {
      var rest := ps[1..];
      assert Separable(rest) by {
        forall k | 0 <= k < |rest| ensures NoBreak(rest[k]) && (k < |rest| - 1 ==> !EndsInNewline(rest[k])) {
          assert rest[k] == ps[k + 1];
        }
      }
      SplitJoin(rest);
      SplitAfterPiece(ps[0], Join(rest));
      assert [ps[0]] + rest == ps;
    }
  }

  /** A concatenation is separator-free when its parts are and no
      separator straddles the seam. */
  lemma {:induction false} NoBreakConcat(a: string, b: string)
    requires NoBreak(a) && NoBreak(b)
    requires !EndsInNewline(a) || |b| == 0 || b[0] != '\n'
    ensures NoBreak(a + b)
  {
    var s := a + b;
    forall i | 0 <= i < |s| ensures !BreakAt(s, i) {
      if i + 1 < |a| {
        assert !BreakAt(a, i);
      } else if i >= |a| {
        assert !BreakAt(b, i - |a|);
      }
    }
  }
}
