// The cookie record and its one-line rendering in the Netscape `cookies.txt`
// format: seven tab-separated columns, no trailing newline.
module Cookies {
  import opened Text

  /** A signed 64-bit integer, the type of the stored expiry and flags. */
  newtype i64 = x: int | -0x8000_0000_0000_0000 <= x < 0x8000_0000_0000_0000

  /** The SameSite attribute. Kept in the record, never rendered. */
  datatype SameSite = None | Lax | Strict

  datatype Cookie = Cookie(
    host: string,
    path: string,
    name: string,
    value: string,
    expiry: i64,
    isSecure: bool,
    isHttpOnly: bool,
    sameSite: SameSite)

  /** The textual token for a boolean column. */
  function StrBool(x: bool): (r: string)
    ensures x <==> r == "TRUE"
    ensures !x <==> r == "FALSE"
  {
    if x then "TRUE" else "FALSE"
  }

  /** Prefix that marks an HttpOnly cookie in the domain column. */
  const HttpOnlyPrefix: string := "#HttpOnly_"

  predicate StartsWithDot(s: string) { |s| > 0 && s[0] == '.' }

  /** The domain column: the host, behind the HttpOnly marker when the
      cookie is HttpOnly. */
  function DomainColumn(c: Cookie): string
  {
    (if c.isHttpOnly then HttpOnlyPrefix else "") + c.host
  }

  /** The seven columns of a cookie line, in order: domain, host-only flag,
      path, secure flag, expiry, name, value. The host-only flag is computed
      from the host, not stored. */
  function Columns(c: Cookie): (cols: seq<string>)
    ensures |cols| == 7
  {
    [DomainColumn(c), StrBool(StartsWithDot(c.host)), c.path,
     StrBool(c.isSecure), Decimal(c.expiry as int), c.name, c.value]
  }

  /** The rendered line: the columns joined by single tabs. */
  function Line(c: Cookie): string
  {
    JoinTabs(Columns(c))
  }

  /** The output sink of a `Display` implementation: what has been written
      so far. Writes never fail in this model. */
  class Formatter {
    var written: string

    constructor ()
      ensures written == []
    {
      written := [];
    }

    method WriteStr(s: string)
      modifies this
      ensures written == old(written) + s
    {
      written := written + s;
    }

    method WriteChar(ch: char)
      modifies this
      ensures written == old(written) + [ch]
    {
      written := written + [ch];
    }
  }

  /** Writes the cookie's line to `f`, one column and one tab at a time. */
  method Fmt(c: Cookie, f: Formatter)
    modifies f
    ensures f.written == old(f.written) + Line(c)
  {
    ghost var w := f.written;
    ghost var out := "";  // what this call has written so far
    // domain
    if c.isHttpOnly {
      f.WriteStr(HttpOnlyPrefix);
      out := out + HttpOnlyPrefix;
    }
    f.WriteStr(c.host);
    out := out + c.host;
    assert f.written == w + out && out == DomainColumn(c);
    f.WriteChar('\t');
    Appended(w, out, "\t"); out := out + "\t";
    // hostOnly
    f.WriteStr(StrBool(StartsWithDot(c.host)));
    Appended(w, out, StrBool(StartsWithDot(c.host))); out := out + StrBool(StartsWithDot(c.host));
    f.WriteChar('\t');
    Appended(w, out, "\t"); out := out + "\t";
    // path
    f.WriteStr(c.path);
    Appended(w, out, c.path); out := out + c.path;
    f.WriteChar('\t');
    Appended(w, out, "\t"); out := out + "\t";
    // secure
    f.WriteStr(StrBool(c.isSecure));
    Appended(w, out, StrBool(c.isSecure)); out := out + StrBool(c.isSecure);
    f.WriteChar('\t');
    Appended(w, out, "\t"); out := out + "\t";
    // expirationDate
    f.WriteStr(Decimal(c.expiry as int));
    Appended(w, out, Decimal(c.expiry as int)); out := out + Decimal(c.expiry as int);
    f.WriteChar('\t');
    Appended(w, out, "\t"); out := out + "\t";
    // name
    f.WriteStr(c.name);
    Appended(w, out, c.name); out := out + c.name;
    f.WriteChar('\t');
    Appended(w, out, "\t"); out := out + "\t";
    // value
    f.WriteStr(c.value);
    Appended(w, out, c.value); out := out + c.value;
    LineUnfolded(c);
  }

  /** Writing `x` after `w + out` extends what was written by `x`. */
  lemma Appended(w: string, out: string, x: string)
    ensures w + out + x == w + (out + x)
  {
  }

  /** The line written out column by column. */
  lemma LineUnfolded(c: Cookie)
    ensures Line(c) == DomainColumn(c) + "\t" + StrBool(StartsWithDot(c.host)) + "\t"
      + c.path + "\t" + StrBool(c.isSecure) + "\t" + Decimal(c.expiry as int) + "\t"
      + c.name + "\t" + c.value
  {
    JoinSevenTabs(DomainColumn(c), StrBool(StartsWithDot(c.host)), c.path,
      StrBool(c.isSecure), Decimal(c.expiry as int), c.name, c.value);
  }

  predicate NoTabs(c: Cookie)
  {
    '\t' !in c.host && '\t' !in c.path && '\t' !in c.name && '\t' !in c.value
  }

  /** With tab-free text fields, splitting the line at its tabs gives back
      exactly the seven columns: the columns are in order, joined by single
      tabs, with nothing before the first or after the last. */
  lemma LineSplitsIntoColumns(c: Cookie)
    requires NoTabs(c)
    ensures SplitTabs(Line(c)) == Columns(c)
  {
    var cols := Columns(c);
    assert '\t' !in HttpOnlyPrefix;
    assert '\t' !in DomainColumn(c);
    SplitJoin(cols);
  }

  /** With tab-free text fields, the line holds exactly six tabs. */
  lemma LineTabCount(c: Cookie)
    requires NoTabs(c)
    ensures Count(Line(c), '\t') == 6
  {
    LineSplitsIntoColumns(c);
  }

  /** The domain column opens the line: `#HttpOnly_` and the host for an
      HttpOnly cookie, the host alone otherwise. */
  lemma LineStartsWithDomain(c: Cookie)
    ensures c.isHttpOnly ==>
      |Line(c)| > |HttpOnlyPrefix| + |c.host| && Line(c)[..|HttpOnlyPrefix| + |c.host|] == HttpOnlyPrefix + c.host
    ensures !c.isHttpOnly ==>
      |Line(c)| > |c.host| && Line(c)[..|c.host| + 1] == c.host + "\t"
  {
    var cols := Columns(c);
    assert Line(c) == DomainColumn(c) + "\t" + JoinTabs(cols[1..]);
  }

  /** The second column reads `TRUE` exactly when the host starts with a dot,
      whatever the other fields are. */
  lemma HostOnlyColumn(c: Cookie)
    requires NoTabs(c)
    ensures |SplitTabs(Line(c))| == 7
    ensures SplitTabs(Line(c))[1] == "TRUE" <==> StartsWithDot(c.host)
    ensures SplitTabs(Line(c))[1] == "FALSE" <==> !StartsWithDot(c.host)
  {
    LineSplitsIntoColumns(c);
  }

  /** The secure column reads `TRUE` exactly when the cookie is secure. */
  lemma SecureColumn(c: Cookie)
    requires NoTabs(c)
    ensures |SplitTabs(Line(c))| == 7
    ensures SplitTabs(Line(c))[3] == "TRUE" <==> c.isSecure
  {
    LineSplitsIntoColumns(c);
  }

  /** The expiry column is the decimal numeral of the expiry: reading it
      back gives the stored value. */
  lemma ExpiryColumn(c: Cookie)
    requires NoTabs(c)
    ensures |SplitTabs(Line(c))| == 7
    ensures SplitTabs(Line(c))[4] == Decimal(c.expiry as int)
    ensures ParseDecimal(SplitTabs(Line(c))[4]) == c.expiry as int
  {
    LineSplitsIntoColumns(c);
    DecimalRoundTrip(c.expiry as int);
  }

  /** The line ends with the value: no tab or newline follows it. */
  lemma LineEndsWithValue(c: Cookie)
    ensures |Line(c)| > |c.value|
    ensures Line(c)[|Line(c)| - |c.value|..] == c.value
    ensures Line(c)[|Line(c)| - |c.value| - 1] == '\t'
  {
    var cols := Columns(c);
    assert cols == cols[..6] + [c.value];
    JoinTabsSnoc(cols[..6], c.value);
  }

  /** The SameSite attribute plays no part in the line. */
  lemma SameSiteNotRendered(c: Cookie, s: SameSite)
    ensures Line(c.(sameSite := s)) == Line(c)
  {
  }

  /** A line has no newline when the text fields have none. */
  lemma LineHasNoNewline(c: Cookie)
    requires '\n' !in c.host && '\n' !in c.path && '\n' !in c.name && '\n' !in c.value
    ensures '\n' !in Line(c)
  {
    JoinTabsAvoids(Columns(c), '\n');
  }

  /** The expiry used by the two examples below, rendered. */
  lemma ExampleExpiry()
    ensures Decimal(1999999999) == "1999999999"
  {
    assert Digits(1) == "1";
    assert Digits(19) == "19";
    assert Digits(199) == "199";
    assert Digits(1999) == "1999";
    assert Digits(19999) == "19999";
    assert Digits(199999) == "199999";
    assert Digits(1999999) == "1999999";
    assert Digits(19999999) == "19999999";
    assert Digits(199999999) == "199999999";
    assert Digits(1999999999) == "1999999999";
  }

  /** A secure cookie for `example.com` that is not HttpOnly. */
  lemma ExampleLine()
    ensures Line(Cookie("example.com", "/", "sid", "abc123", 1999999999, true, false, Lax))
      == "example.com\tFALSE\t/\tTRUE\t1999999999\tsid\tabc123"
  {
    var c := Cookie("example.com", "/", "sid", "abc123", 1999999999, true, false, Lax);
    ExampleExpiry();
    assert DomainColumn(c) == "example.com";
    assert !StartsWithDot(c.host);
    assert Columns(c) == ["example.com", "FALSE", "/", "TRUE", "1999999999", "sid", "abc123"];
    JoinSevenTabs("example.com", "FALSE", "/", "TRUE", "1999999999", "sid", "abc123");
    ExampleLineText();
  }

  lemma ExampleLineText()
    ensures "example.com" + "\t" + "FALSE" + "\t" + "/" + "\t" + "TRUE" + "\t" + "1999999999" + "\t" + "sid" + "\t" + "abc123"
      == "example.com\tFALSE\t/\tTRUE\t1999999999\tsid\tabc123"
  {
    assert "example.com" + "\t" == "example.com\t";
    assert "example.com\t" + "FALSE" == "example.com\tFALSE";
    assert "example.com\tFALSE" + "\t" == "example.com\tFALSE\t";
    assert "example.com\tFALSE\t" + "/" == "example.com\tFALSE\t/";
    assert "example.com\tFALSE\t/" + "\t" == "example.com\tFALSE\t/\t";
    assert "example.com\tFALSE\t/\t" + "TRUE" == "example.com\tFALSE\t/\tTRUE";
    assert "example.com\tFALSE\t/\tTRUE" + "\t" == "example.com\tFALSE\t/\tTRUE\t";
    assert "example.com\tFALSE\t/\tTRUE\t" + "1999999999" == "example.com\tFALSE\t/\tTRUE\t1999999999";
    assert "example.com\tFALSE\t/\tTRUE\t1999999999" + "\t" == "example.com\tFALSE\t/\tTRUE\t1999999999\t";
    assert "example.com\tFALSE\t/\tTRUE\t1999999999\t" + "sid" == "example.com\tFALSE\t/\tTRUE\t1999999999\tsid";
    assert "example.com\tFALSE\t/\tTRUE\t1999999999\tsid" + "\t" == "example.com\tFALSE\t/\tTRUE\t1999999999\tsid\t";
    assert "example.com\tFALSE\t/\tTRUE\t1999999999\tsid\t" + "abc123" == "example.com\tFALSE\t/\tTRUE\t1999999999\tsid\tabc123";
  }

  /** The same cookie for `.example.com`, now HttpOnly. */
  lemma ExampleHttpOnlyLine()
    ensures Line(Cookie(".example.com", "/", "sid", "abc123", 1999999999, true, true, Lax))
      == "#HttpOnly_.example.com\tTRUE\t/\tTRUE\t1999999999\tsid\tabc123"
  {
    var c := Cookie(".example.com", "/", "sid", "abc123", 1999999999, true, true, Lax);
    ExampleExpiry();
    assert DomainColumn(c) == "#HttpOnly_.example.com";
    assert StartsWithDot(c.host);
    assert Columns(c) == ["#HttpOnly_.example.com", "TRUE", "/", "TRUE", "1999999999", "sid", "abc123"];
    JoinSevenTabs("#HttpOnly_.example.com", "TRUE", "/", "TRUE", "1999999999", "sid", "abc123");
    ExampleHttpOnlyLineText();
  }

  lemma ExampleHttpOnlyLineText()
    ensures "#HttpOnly_.example.com" + "\t" + "TRUE" + "\t" + "/" + "\t" + "TRUE" + "\t" + "1999999999" + "\t" + "sid" + "\t" + "abc123"
      == "#HttpOnly_.example.com\tTRUE\t/\tTRUE\t1999999999\tsid\tabc123"
  {
    assert "#HttpOnly_.example.com" + "\t" == "#HttpOnly_.example.com\t";
    assert "#HttpOnly_.example.com\t" + "TRUE" == "#HttpOnly_.example.com\tTRUE";
    assert "#HttpOnly_.example.com\tTRUE" + "\t" == "#HttpOnly_.example.com\tTRUE\t";
    assert "#HttpOnly_.example.com\tTRUE\t" + "/" == "#HttpOnly_.example.com\tTRUE\t/";
    assert "#HttpOnly_.example.com\tTRUE\t/" + "\t" == "#HttpOnly_.example.com\tTRUE\t/\t";
    assert "#HttpOnly_.example.com\tTRUE\t/\t" + "TRUE" == "#HttpOnly_.example.com\tTRUE\t/\tTRUE";
    assert "#HttpOnly_.example.com\tTRUE\t/\tTRUE" + "\t" == "#HttpOnly_.example.com\tTRUE\t/\tTRUE\t";
    assert "#HttpOnly_.example.com\tTRUE\t/\tTRUE\t" + "1999999999" == "#HttpOnly_.example.com\tTRUE\t/\tTRUE\t1999999999";
    assert "#HttpOnly_.example.com\tTRUE\t/\tTRUE\t1999999999" + "\t" == "#HttpOnly_.example.com\tTRUE\t/\tTRUE\t1999999999\t";
    assert "#HttpOnly_.example.com\tTRUE\t/\tTRUE\t1999999999\t" + "sid" == "#HttpOnly_.example.com\tTRUE\t/\tTRUE\t1999999999\tsid";
    assert "#HttpOnly_.example.com\tTRUE\t/\tTRUE\t1999999999\tsid" + "\t" == "#HttpOnly_.example.com\tTRUE\t/\tTRUE\t1999999999\tsid\t";
    assert "#HttpOnly_.example.com\tTRUE\t/\tTRUE\t1999999999\tsid\t" + "abc123" == "#HttpOnly_.example.com\tTRUE\t/\tTRUE\t1999999999\tsid\tabc123";
  }
}
