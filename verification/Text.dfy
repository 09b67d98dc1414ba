/** Decimal numbers, separated lists and text order, as the stores and the output script use them. */
module Text {

  datatype Option<T> = None | Some(value: T)

  // ---- digits ----

  function Digit(n: nat): char
    requires n < 10
  {
    '0' + n as char
  }

  predicate IsDigit(c: char) { '0' <= c <= '9' }

  function DigitValue(c: char): (n: nat)
    requires IsDigit(c)
    ensures n < 10 && Digit(n) == c
  {
    (c - '0') as int
  }

  predicate AllDigits(s: string) { forall i :: 0 <= i < |s| ==> IsDigit(s[i]) }

  /** The number a digit string denotes. */
  function Value(s: string): nat
    requires AllDigits(s)
  {
    if s == "" then 0 else 10 * Value(s[..|s| - 1]) + DigitValue(s[|s| - 1])
  }

  function Decimal(n: nat): (s: string)
    ensures s != "" && AllDigits(s) && Value(s) == n
  {
    if n < 10 then assert [Digit(n)][..0] == ""; [Digit(n)]
    else
      var front := Decimal(n / 10);
      var s := front + [Digit(n % 10)];
      assert s[..|s| - 1] == front;
      s
  }

  /** `n` in exactly `width` digits; what does not fit is cut off at the front. */
  function Padded(n: nat, width: nat): (s: string)
    ensures |s| == width && AllDigits(s)
  {
    if width == 0 then "" else Padded(n / 10, width - 1) + [Digit(n % 10)]
  }

  function Pow10(k: nat): (p: nat)
    ensures p > 0
  {
    if k == 0 then 1 else 10 * Pow10(k - 1)
  }

  lemma ValueAppend(s: string, c: char)
    requires AllDigits(s) && IsDigit(c)
    ensures AllDigits(s + [c]) && Value(s + [c]) == 10 * Value(s) + DigitValue(c)
  {
    assert (s + [c])[..|s + [c]| - 1] == s;
  }

  lemma {:induction false} PaddedValue(n: nat, width: nat)
    requires n < Pow10(width)
    ensures Value(Padded(n, width)) == n
  {
    if width == 0 {
    } else {
      PaddedValue(n / 10, width - 1);
      ValueAppend(Padded(n / 10, width - 1), Digit(n % 10));
    }
  }

  lemma {:induction false} ValuePadded(s: string)
    requires AllDigits(s)
    ensures Value(s) < Pow10(|s|) && Padded(Value(s), |s|) == s
  {
    if s == "" {
    } else {
      ValuePadded(s[..|s| - 1]);
      assert s == s[..|s| - 1] + [s[|s| - 1]];
    }
  }

  // ---- text order ----

  /** Byte-wise lexicographic order, as the database compares text. */
  predicate Before(a: string, b: string) {
    if b == "" then false
    else if a == "" then true
    else a[0] < b[0] || (a[0] == b[0] && Before(a[1..], b[1..]))
  }

  lemma {:induction false} BeforeByParts(a: string, b: string, a': string, b': string)
    requires |a| == |a'|
    ensures Before(a + b, a' + b') <==> Before(a, a') || (a == a' && Before(b, b'))
    decreases |a|
  {
    if a == "" {
      assert a + b == b && a' + b' == b';
    } else {
      BeforeByParts(a[1..], b, a'[1..], b');
      assert (a + b)[1..] == a[1..] + b && (a' + b')[1..] == a'[1..] + b';
      assert a == a' <==> a[0] == a'[0] && a[1..] == a'[1..];
    }
  }

  /** Two texts whose leading fields are equally long compare field first. */
  lemma BeforeByField(a: string, rest: string, a': string, rest': string, mark: char)
    requires |a| == |a'|
    ensures Before(a + [mark] + rest, a' + [mark] + rest') <==> Before(a, a') || (a == a' && Before(rest, rest'))
  {
    BeforeByParts(a, [mark] + rest, a', [mark] + rest');
    BeforeByParts([mark], rest, [mark], rest');
    assert a + [mark] + rest == a + ([mark] + rest);
    assert a' + [mark] + rest' == a' + ([mark] + rest');
    assert !Before([mark], [mark]);
  }

  lemma {:induction false} DigitsOrder(a: string, b: string)
    requires AllDigits(a) && AllDigits(b) && |a| == |b|
    ensures Before(a, b) <==> Value(a) < Value(b)
    ensures a == b <==> Value(a) == Value(b)
    decreases |a|
  {
    if a == "" {
    } else {
      var k := |a| - 1;
      DigitsOrder(a[..k], b[..k]);
      BeforeByParts(a[..k], [a[k]], b[..k], [b[k]]);
      assert a == a[..k] + [a[k]] && b == b[..k] + [b[k]];
      assert [a[k]][1..] == "" && [b[k]][1..] == "";
    }
  }

  lemma PaddedOrder(m: nat, n: nat, width: nat)
    requires m < Pow10(width) && n < Pow10(width)
    ensures Before(Padded(m, width), Padded(n, width)) <==> m < n
    ensures Padded(m, width) == Padded(n, width) <==> m == n
  {
    PaddedValue(m, width);
    PaddedValue(n, width);
    DigitsOrder(Padded(m, width), Padded(n, width));
  }

  lemma {:induction false} BeforeIrreflexive(s: string)
    ensures !Before(s, s)
    decreases |s|
  {
    if s == "" {
    } else {
      BeforeIrreflexive(s[1..]);
    }
  }

  lemma {:induction false} BeforeTransitive(a: string, b: string, c: string)
    requires Before(a, b) && Before(b, c)
    ensures Before(a, c)
    decreases |a|
  {
    if a == "" || a[0] != b[0] || b[0] != c[0] {
    } else {
      BeforeTransitive(a[1..], b[1..], c[1..]);
    }
  }

  lemma {:induction false} BeforeTotal(a: string, b: string)
    ensures Before(a, b) || a == b || Before(b, a)
    decreases |a|
  {
    if a == "" || b == "" || a[0] != b[0] {
    } else {
      BeforeTotal(a[1..], b[1..]);
      assert a == [a[0]] + a[1..] && b == [b[0]] + b[1..];
    }
  }

  // ---- separated lists ----

  function Join(xs: seq<string>, sep: char): string {
    if xs == [] then ""
    else if |xs| == 1 then xs[0]
    else xs[0] + [sep] + Join(xs[1..], sep)
  }

  /** The pieces between separators; the empty text has one empty piece. */
  function Split(s: string, sep: char): (xs: seq<string>)
    ensures xs != []
  {
    if s == "" then [""]
    else
      var rest := Split(s[1..], sep);
      if s[0] == sep then [""] + rest else [[s[0]] + rest[0]] + rest[1..]
  }

  lemma {:induction false} SplitPiece(x: string, s: string, sep: char)
    requires sep !in x
    ensures Split(x + [sep] + s, sep) == [x] + Split(s, sep)
    decreases |x|
  {
    var t := x + [sep] + s;
    if x == "" {
      assert t[1..] == s;
    } else {
      SplitPiece(x[1..], s, sep);
      assert t[1..] == x[1..] + [sep] + s;
      assert [x[0]] + x[1..] == x;
    }
  }

  lemma {:induction false} SplitWhole(x: string, sep: char)
    requires sep !in x
    ensures Split(x, sep) == [x]
    decreases |x|
  {
    if x == "" {
    } else {
      SplitWhole(x[1..], sep);
      assert [x[0]] + x[1..] == x;
    }
  }

  lemma {:induction false} SplitJoin(xs: seq<string>, sep: char)
    requires xs != [] && forall i :: 0 <= i < |xs| ==> sep !in xs[i]
    ensures Split(Join(xs, sep), sep) == xs
    decreases |xs|
  {
    if |xs| == 1 {
      SplitWhole(xs[0], sep);
    } else {
      SplitJoin(xs[1..], sep);
      SplitPiece(xs[0], Join(xs[1..], sep), sep);
    }
  }
}
