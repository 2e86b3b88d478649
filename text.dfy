// Text helpers shared by the cookie-line formatter and the URI builder:
// counting characters, joining and splitting tab-separated columns, and the
// decimal rendering that Rust's `Display for i64` produces.
module Text {

  /** Number of occurrences of `c` in `s`. */
  function Count(s: string, c: char): (n: nat)
    ensures n <= |s|
    ensures n == 0 <==> c !in s
  {
    if s == [] then 0 else (if s[0] == c then 1 else 0) + Count(s[1..], c)
  }

  lemma {:induction false} CountAppend(a: string, b: string, c: char)
    ensures Count(a + b, c) == Count(a, c) + Count(b, c)
  {
    if a == [] {
      assert a + b == b;
    } else {
      assert (a + b)[1..] == a[1..] + b;
      CountAppend(a[1..], b, c);
    }
  }

  /** The columns joined by single tab characters, with no tab before the
      first column or after the last one. */
  function JoinTabs(cols: seq<string>): string
  {
    if |cols| == 0 then ""
    else if |cols| == 1 then cols[0]
    else cols[0] + "\t" + JoinTabs(cols[1..])
  }

  /** The inverse of JoinTabs: the pieces of `s` between tab characters. */
  function SplitTabs(s: string): (cols: seq<string>)
    ensures |cols| >= 1
    ensures |cols| == Count(s, '\t') + 1
  {
    if s == [] then [""]
    else
      var rest := SplitTabs(s[1..]);
      if s[0] == '\t' then [""] + rest
      else [[s[0]] + rest[0]] + rest[1..]
  }

  lemma {:induction false} SplitNoTab(a: string)
    requires '\t' !in a
    ensures SplitTabs(a) == [a]
  {
    if a != [] {
      SplitNoTab(a[1..]);
      assert [a[0]] + a[1..] == a;
    }
  }

  lemma {:induction false} SplitAfterTab(a: string, b: string)
    requires '\t' !in a
    ensures SplitTabs(a + "\t" + b) == [a] + SplitTabs(b)
  {
    var s := a + "\t" + b;
    if a == [] {
      assert s == "\t" + b;
      assert s[0] == '\t' && s[1..] == b;
    } else {
      assert s[0] == a[0] && s[1..] == a[1..] + "\t" + b;
      SplitAfterTab(a[1..], b);
      var rest := SplitTabs(s[1..]);
      assert rest[0] == a[1..] && rest[1..] == SplitTabs(b);
      assert [a[0]] + a[1..] == a;
    }
  }

  /** Splitting a tab-joined line gives back its columns, provided no column
      contains a tab itself. */
  lemma {:induction false} SplitJoin(cols: seq<string>)
    requires |cols| >= 1
    requires forall i :: 0 <= i < |cols| ==> '\t' !in cols[i]
    ensures SplitTabs(JoinTabs(cols)) == cols
  {
    if |cols| == 1 {
      SplitNoTab(cols[0]);
    } else {
      SplitJoin(cols[1..]);
      SplitAfterTab(cols[0], JoinTabs(cols[1..]));
      assert [cols[0]] + cols[1..] == cols;
    }
  }

  /** A tab-joined line holds one tab between each pair of neighbouring
      columns, plus whatever tabs the columns hold themselves. */
  lemma {:induction false} JoinTabsCount(cols: seq<string>, c: char)
    requires |cols| >= 1
    ensures Count(JoinTabs(cols), c) == Count(cols[0], c) + (if |cols| == 1 then 0 else (if c == '\t' then 1 else 0) + Count(JoinTabs(cols[1..]), c))
  {
    if |cols| > 1 {
      CountAppend(cols[0] + "\t", JoinTabs(cols[1..]), c);
      CountAppend(cols[0], "\t", c);
    }
  }

  /** Appending a column adds one tab and the column at the end. */
  lemma {:induction false} JoinTabsSnoc(cols: seq<string>, x: string)
    requires |cols| >= 1
    ensures JoinTabs(cols + [x]) == JoinTabs(cols) + "\t" + x
  {
    if |cols| > 1 {
      JoinTabsSnoc(cols[1..], x);
      assert (cols + [x])[1..] == cols[1..] + [x];
    } else {
      assert (cols + [x])[1..] == [x];
    }
  }

  /** A line of seven columns, written out. */
  lemma JoinSevenTabs(a: string, b: string, c: string, d: string, e: string, f: string, g: string)
    ensures JoinTabs([a, b, c, d, e, f, g])
      == a + "\t" + b + "\t" + c + "\t" + d + "\t" + e + "\t" + f + "\t" + g
  {
    JoinTabsSnoc([a], b);
    assert [a] + [b] == [a, b];
    JoinTabsSnoc([a, b], c);
    assert [a, b] + [c] == [a, b, c];
    JoinTabsSnoc([a, b, c], d);
    assert [a, b, c] + [d] == [a, b, c, d];
    JoinTabsSnoc([a, b, c, d], e);
    assert [a, b, c, d] + [e] == [a, b, c, d, e];
    JoinTabsSnoc([a, b, c, d, e], f);
    assert [a, b, c, d, e] + [f] == [a, b, c, d, e, f];
    JoinTabsSnoc([a, b, c, d, e, f], g);
    assert [a, b, c, d, e, f] + [g] == [a, b, c, d, e, f, g];
  }

  /** A character other than tab occurs in a tab-joined line only if it
      occurs in one of the columns. */
  lemma {:induction false} JoinTabsAvoids(cols: seq<string>, ch: char)
    requires ch != '\t'
    requires forall i :: 0 <= i < |cols| ==> ch !in cols[i]
    ensures ch !in JoinTabs(cols)
  {
    if |cols| > 1 {
      JoinTabsAvoids(cols[1..], ch);
    }
  }

  // ---------------------------------------------------------------------
  // Decimal rendering of integers (the `{}` format of a Rust `i64`)

  predicate IsDigit(c: char) { '0' <= c <= '9' }

  function DigitChar(d: nat): (c: char)
    requires d < 10
    ensures IsDigit(c) && (c as int) - ('0' as int) == d
  {
    ('0' as int + d) as char
  }

  /** The decimal digits of `n`, most significant first, without leading zeros. */
  function Digits(n: nat): (s: string)
    ensures |s| >= 1
    ensures forall i :: 0 <= i < |s| ==> IsDigit(s[i])
    ensures s[0] == '0' ==> n == 0
  {
    if n < 10 then [DigitChar(n)] else Digits(n / 10) + [DigitChar(n % 10)]
  }

  /** Rust's rendering of a signed integer: a `-` before the digits of its
      magnitude when it is negative. */
  function Decimal(n: int): (s: string)
    ensures |s| >= 1
    ensures (s[0] == '-') <==> n < 0
    ensures '\t' !in s && '\n' !in s
  {
    if n < 0 then "-" + Digits(-n) else Digits(n)
  }

  /** The value of a string of decimal digits. */
  function DigitsValue(s: string): nat
    requires forall i :: 0 <= i < |s| ==> IsDigit(s[i])
  {
    if s == [] then 0
    else
      assert IsDigit(s[|s| - 1]);
      DigitsValue(s[..|s| - 1]) * 10 + ((s[|s| - 1] as int) - ('0' as int))
  }

  /** The value of an optionally negative decimal numeral. */
  function ParseDecimal(s: string): (n: int)
    requires |s| >= 1
    requires forall i :: 0 < i < |s| ==> IsDigit(s[i])
    requires s[0] == '-' || IsDigit(s[0])
  {
    if s[0] == '-' then -(DigitsValue(s[1..]) as int) else DigitsValue(s)
  }

  lemma {:induction false} DigitsRoundTrip(n: nat)
    ensures DigitsValue(Digits(n)) == n
  {
    if n >= 10 {
      DigitsRoundTrip(n / 10);
      var s := Digits(n / 10) + [DigitChar(n % 10)];
      assert s[..|s| - 1] == Digits(n / 10);
    }
  }

  /** Reading the rendered numeral back gives the number: the rendering
      loses nothing. */
  lemma DecimalRoundTrip(n: int)
    ensures ParseDecimal(Decimal(n)) == n
  {
    if n < 0 {
      DigitsRoundTrip(-n);
      assert Decimal(n)[1..] == Digits(-n);
    } else {
      DigitsRoundTrip(n);
    }
  }
}
