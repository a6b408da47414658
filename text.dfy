/** The parts of Python's `str` that the retrieval pipeline relies on:
    `strip()`, `lower()`, `split()` without an argument, and the decimal
    rendering of an integer inside an f-string. */
module Text {

  /** The characters Python's `str.isspace()` accepts. `str.strip()` and
      `str.split()` without arguments treat exactly these as whitespace. */
  predicate IsSpace(c: char) {
    || '\t' <= c <= '\r'
    || '\U{1C}' <= c <= ' '
    || c == '\U{85}' || c == '\U{A0}' || c == '\U{1680}'
    || '\U{2000}' <= c <= '\U{200A}'
    || c == '\U{2028}' || c == '\U{2029}' || c == '\U{202F}'
    || c == '\U{205F}' || c == '\U{3000}'
  }

  predicate AllSpace(s: string) {
    forall i :: 0 <= i < |s| ==> IsSpace(s[i])
  }

  predicate NoSpace(s: string) {
    forall i :: 0 <= i < |s| ==> !IsSpace(s[i])
  }

  /** `s` without its leading whitespace. */
  function TrimStart(s: string): (r: string)
    ensures |r| <= |s|
    ensures |r| == 0 || !IsSpace(r[0])
  {
    if |s| > 0 && IsSpace(s[0]) then TrimStart(s[1..]) else s
  }

  /** `TrimStart` removes a whitespace prefix and keeps the rest. */
  lemma {:induction false} TrimStartParts(s: string)
    ensures var n := |s| - |TrimStart(s)|;
      TrimStart(s) == s[n..] && AllSpace(s[..n])
  {
    if |s| > 0 && IsSpace(s[0]) {
      TrimStartParts(s[1..]);
      var n := |s| - |TrimStart(s)|;
      assert s[n..] == s[1..][n - 1..];
      assert forall i :: 1 <= i < n ==> s[..n][i] == s[1..][..n - 1][i - 1];
    }
  }

  /** `s` without its trailing whitespace. */
  function TrimEnd(s: string): (r: string)
    ensures |r| <= |s|
    ensures |r| == 0 || !IsSpace(r[|r| - 1])
  {
    if |s| > 0 && IsSpace(s[|s| - 1]) then TrimEnd(s[..|s| - 1]) else s
  }

  /** `TrimEnd` removes a whitespace suffix and keeps the rest. */
  lemma {:induction false} TrimEndParts(s: string)
    ensures var n := |TrimEnd(s)|;
      TrimEnd(s) == s[..n] && AllSpace(s[n..])
  {
    if |s| > 0 && IsSpace(s[|s| - 1]) {
      var init := s[..|s| - 1];
      TrimEndParts(init);
      var n := |TrimEnd(s)|;
      assert init[..n] == s[..n];
      assert forall i :: n <= i < |s| - 1 ==> s[i] == init[i];
      assert forall i :: 0 <= i < |s| - n ==> s[n..][i] == s[n + i];
    }
  }

  /** Python's `str.strip()`: neither end of the result is whitespace. */
  function Strip(s: string): (r: string)
    ensures |r| <= |s|
    ensures |r| == 0 || (!IsSpace(r[0]) && !IsSpace(r[|r| - 1]))
  {
    var t := TrimStart(s);
    TrimEndParts(t);
    TrimEnd(t)
  }

  /** What `strip()` removes is a whitespace prefix and a whitespace
      suffix: the result is the part of `s` that lies between them. */
  lemma {:induction false} StripIsInfix(s: string)
    ensures var r, i := Strip(s), |s| - |TrimStart(s)|;
      && i + |r| <= |s| && r == s[i..i + |r|]
      && AllSpace(s[..i]) && AllSpace(s[i + |r|..])
  {
    var t := TrimStart(s);
    var r := TrimEnd(t);
    var i := |s| - |t|;
    TrimStartParts(s);
    TrimEndParts(t);
    SliceOfSuffix(s, i, |r|);
  }

  lemma {:induction false} SliceOfSuffix<T>(s: seq<T>, i: nat, n: nat)
    requires i + n <= |s|
    ensures s[i..][..n] == s[i..i + n] && s[i..][n..] == s[i + n..]
  {
  }

  /** Stripping leaves nothing exactly when the text is all whitespace. */
  lemma {:induction false} StripEmptyIff(s: string)
    ensures |Strip(s)| == 0 <==> AllSpace(s)
  {
    var t := TrimStart(s);
    if |Strip(s)| == 0 {
      TrimEndParts(t);
      assert t[0..] == t;
      TrimStartParts(s);
      assert s[..|s|] == s;
    }
    if AllSpace(s) {
      TrimStartAllSpace(s, []);
      assert s + [] == s;
    }
  }

  /** Python's `str.lower()` restricted to ASCII letters. */
  function LowerChar(c: char): char {
    if 'A' <= c <= 'Z' then (c as int + 32) as char else c
  }

  function Lower(s: string): (r: string)
    ensures |r| == |s|
    ensures forall i :: 0 <= i < |s| ==> r[i] == LowerChar(s[i])
  {
    if |s| == 0 then [] else [LowerChar(s[0])] + Lower(s[1..])
  }

  /** The longest prefix of `s` that holds no whitespace. */
  function TakeWord(s: string): (w: string)
    ensures |w| <= |s|
    ensures |s| > 0 && !IsSpace(s[0]) ==> |w| > 0
  {
    if |s| == 0 || IsSpace(s[0]) then [] else [s[0]] + TakeWord(s[1..])
  }

  /** `TakeWord` takes a whitespace-free prefix and stops only at the end
      or at whitespace. */
  lemma {:induction false} TakeWordParts(s: string)
    ensures var w := TakeWord(s);
      && w == s[..|w|] && NoSpace(w)
      && (|w| == |s| || IsSpace(s[|w|]))
  {
    if |s| > 0 && !IsSpace(s[0]) {
      TakeWordParts(s[1..]);
      var w := TakeWord(s);
      assert w == [s[0]] + s[1..][..|w| - 1];
    }
  }

  /** Python's `str.split()` without an argument: the maximal runs of
      non-whitespace characters of `s`, in order. */
  function Words(s: string): seq<string>
    decreases |s|
  {
    var t := TrimStart(s);
    if |t| == 0 then []
    else
      var w := TakeWord(t);
      [w] + Words(t[|w|..])
  }

  /** Every word is non-empty and holds no whitespace. */
  lemma {:induction false} WordsShape(s: string)
    ensures forall k :: 0 <= k < |Words(s)| ==> |Words(s)[k]| > 0 && NoSpace(Words(s)[k])
    decreases |s|
  {
    var t := TrimStart(s);
    if |t| > 0 {
      var w := TakeWord(t);
      var ws := Words(t[|w|..]);
      TakeWordParts(t);
      WordsShape(t[|w|..]);
      WordsUnfold(s);
      forall k | 0 <= k < |Words(s)| ensures |Words(s)[k]| > 0 && NoSpace(Words(s)[k]) {
        if k > 0 {
          assert Words(s)[k] == ws[k - 1];
        }
      }
    }
  }

  lemma {:induction false} TrimStartAppend(a: string, b: string)
    requires |TrimStart(a)| > 0
    ensures TrimStart(a + b) == TrimStart(a) + b
  {
    if |a| > 0 && IsSpace(a[0]) {
      assert (a + b)[1..] == a[1..] + b;
      TrimStartAppend(a[1..], b);
    }
  }

  lemma {:induction false} TrimStartAllSpace(a: string, b: string)
    requires AllSpace(a)
    ensures TrimStart(a + b) == TrimStart(b)
  {
    if |a| > 0 {
      assert (a + b)[1..] == a[1..] + b;
      TrimStartAllSpace(a[1..], b);
    } else {
      assert a + b == b;
    }
  }

  lemma {:induction false} TakeWordAppend(a: string, b: string)
    requires |TakeWord(a)| < |a| || |b| == 0 || IsSpace(b[0])
    ensures TakeWord(a + b) == TakeWord(a)
  {
    if |a| == 0 {
      assert a + b == b;
    } else if !IsSpace(a[0]) {
      assert (a + b)[1..] == a[1..] + b;
      TakeWordAppend(a[1..], b);
    }
  }

  /** The first word and the rest, when there is a word at all. */
  lemma {:induction false} WordsUnfold(s: string)
    requires |TrimStart(s)| > 0
    ensures var t := TrimStart(s); var w := TakeWord(t);
      Words(s) == [w] + Words(t[|w|..])
  {
  }

  lemma {:induction false} WordsSameStart(x: string, y: string)
    requires TrimStart(x) == TrimStart(y)
    ensures Words(x) == Words(y)
  {
  }

  lemma {:induction false} WordsOfSpace(s: string)
    requires |TrimStart(s)| == 0
    ensures |Words(s)| == 0
  {
  }

  /** A single whitespace-free word splits into itself. With
      `WordsAfterBlank` and `WordsAppend` this fixes what `split()`
      returns on every text. */
  lemma {:induction false} WordsOfWord(w: string)
    requires |w| > 0 && NoSpace(w)
    ensures Words(w) == [w]
  {
    assert TrimStart(w) == w;
    TakeWordParts(w);
    var t := TakeWord(w);
    assert |t| == |w|;
    assert t == w;
    WordsUnfold(w);
    WordsOfSpace(w[|w|..]);
  }

  lemma {:induction false} ConcatAssoc<T>(x: seq<T>, y: seq<T>, z: seq<T>)
    ensures x + (y + z) == (x + y) + z
  {
  }

  lemma {:induction false} DropAppend(t: string, b: string, k: nat)
    requires k <= |t|
    ensures (t + b)[k..] == t[k..] + b
  {
  }

  /** A whitespace-only `a` adds no words in front of `b`. */
  lemma {:induction false} WordsAfterBlank(a: string, b: string)
    requires |TrimStart(a)| == 0
    ensures Words(a + b) == Words(b) && |Words(a)| == 0
  {
    TrimStartParts(a);
    assert a[..|a|] == a;
    TrimStartAllSpace(a, b);
    WordsSameStart(a + b, b);
    WordsOfSpace(a);
  }

  /** The first word of `a` is also the first word of `a + b`. */
  lemma {:induction false} WordsFirstOfAppend(a: string, b: string)
    requires |a| == 0 || |b| == 0 || IsSpace(a[|a| - 1]) || IsSpace(b[0])
    requires |TrimStart(a)| > 0
    ensures var t := TrimStart(a); var w := TakeWord(t);
      Words(a + b) == [w] + Words(t[|w|..] + b)
  {
    var t := TrimStart(a);
    var w := TakeWord(t);
    TrimStartAppend(a, b);
    assert |w| < |t| || |b| == 0 || IsSpace(b[0]) by {
      if |w| == |t| && |b| > 0 {
        TakeWordParts(t);
        TrimStartParts(a);
        assert t[|t| - 1] == a[|a| - 1];
        assert w[|w| - 1] == t[|t| - 1];
      }
    }
    TakeWordAppend(t, b);
    DropAppend(t, b, |w|);
    WordsUnfold(a + b);
  }

  /** What follows the first word of `a` ends where `a` ends. */
  lemma {:induction false} RestEnd(a: string)
    requires |TrimStart(a)| > 0
    ensures var t := TrimStart(a); var rest := t[|TakeWord(t)|..];
      |rest| < |a| && (|rest| == 0 || rest[|rest| - 1] == a[|a| - 1])
  {
    TrimStartParts(a);
  }

  /** Splitting at a whitespace boundary: the words of `a + b` are the
      words of `a` followed by the words of `b`, when `a` ends or `b`
      starts with whitespace. */
  lemma {:induction false} WordsAppend(a: string, b: string)
    requires |a| == 0 || |b| == 0 || IsSpace(a[|a| - 1]) || IsSpace(b[0])
    ensures Words(a + b) == Words(a) + Words(b)
    decreases |a|
  {
    var t := TrimStart(a);
    if |t| == 0 {
      WordsAfterBlank(a, b);
    } else {
      var w := TakeWord(t);
      var rest := t[|w|..];
      WordsFirstOfAppend(a, b);
      WordsUnfold(a);
      RestEnd(a);
      WordsAppend(rest, b);
      ConcatAssoc([w], Words(rest), Words(b));
    }
  }

  /** The words of two texts joined by a space are the words of the
      first followed by the words of the second. */
  lemma {:induction false} WordsAroundSpace(a: string, b: string)
    ensures Words(a + " " + b) == Words(a) + Words(b)
  {
    var sp := " ";
    assert IsSpace(sp[0]);
    WordsAppend(a, sp);
    assert (a + sp)[|a + sp| - 1] == ' ';
    WordsAppend(a + sp, b);
    NoWordsInSpace();
  }

  lemma {:induction false} NoWordsInSpace()
    ensures |Words(" ")| == 0
  {
    assert IsSpace(" "[0]);
    assert |TrimStart(" ")| == 0 by {
      assert TrimStart(" ") == TrimStart(" "[1..]);
    }
  }

  /** One decimal digit. */
  function Digit(d: nat): (c: char)
    requires d < 10
    ensures '0' <= c <= '9' && c as int - '0' as int == d
  {
    ('0' as int + d) as char
  }

  predicate IsDigits(s: string) {
    forall i :: 0 <= i < |s| ==> '0' <= s[i] <= '9'
  }

  /** Python's `str(n)` for a non-negative `int`, as an f-string shows it:
      digits only, and no leading zero except for zero itself. */
  function DecimalString(n: nat): (r: string)
    ensures |r| >= 1 && IsDigits(r)
    ensures r[0] == '0' ==> n == 0 && r == "0"
  {
    if n < 10 then [Digit(n)] else DecimalString(n / 10) + [Digit(n % 10)]
  }

  /** The number a string of decimal digits denotes. */
  function DecimalValue(s: string): nat
    requires IsDigits(s)
  {
    if |s| == 0 then 0
    else DecimalValue(s[..|s| - 1]) * 10 + (s[|s| - 1] as int - '0' as int)
  }

  /** Reading back the rendered digits gives the number again. */
  lemma {:induction false} DecimalRoundTrip(n: nat)
    ensures DecimalValue(DecimalString(n)) == n
  {
    var r := DecimalString(n);
    if n >= 10 {
      DecimalRoundTrip(n / 10);
      assert r[..|r| - 1] == DecimalString(n / 10);
    }
  }
}
