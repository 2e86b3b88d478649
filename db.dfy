// Reading Firefox's cookie database: the SQLite URI filename built from the
// database path, the decoding of one `moz_cookies` row into a cookie, and the
// all-or-nothing collection of the decoded rows.
//
// Opening the connection and running the query are outside this model: the
// rows the query yields, already typed, are an input.
module Db {
  import opened Text
  import opened Cookies

  datatype Error =
    | PathNotUtf8               // the path has no UTF-8 text form
    | UnknownSameSite(code: i64) // a row holds a sameSite code with no meaning

  datatype Result<T> = Ok(value: T) | Err(error: Error)

  /** A filesystem path as the operating system gives it: either it has a
      UTF-8 text form, or it has none. */
  datatype OsPath = Utf8Path(text: string) | NonUtf8Path

  /** One row of the query, in column order: host, path, name, value,
      expiry, isSecure, isHttpOnly, sameSite. */
  datatype Row = Row(
    host: string,
    path: string,
    name: string,
    value: string,
    expiry: i64,
    isSecure: i64,
    isHttpOnly: i64,
    sameSite: i64)

  // ---------------------------------------------------------------------
  // The URI filename

  const UriScheme: string := "file:"
  const UriQuery: string := "?immutable=1"

  /** The text that stands for one path character in the URI. */
  function EscapeChar(c: char): string
  {
    if c == '#' then "%23" else if c == '?' then "%3f" else [c]
  }

  /** The path with every `#` and `?` percent-encoded. */
  function Escape(p: string): string
  {
    if p == [] then "" else EscapeChar(p[0]) + Escape(p[1..])
  }

  /** The URI filename for a path: scheme, escaped path, immutable flag. */
  function Uri(p: string): string
  {
    UriScheme + Escape(p) + UriQuery
  }

  lemma {:induction false} EscapeSnoc(p: string, c: char)
    ensures Escape(p + [c]) == Escape(p) + EscapeChar(c)
  {
    if p == [] {
      assert [c][1..] == [];
    } else {
      assert (p + [c])[1..] == p[1..] + [c];
      EscapeSnoc(p[1..], c);
    }
  }

  /** Builds the URI filename for `path`, appending to a buffer one path
      character at a time. Fails when the path has no UTF-8 form. */
  method MakeUri(path: OsPath) returns (r: Result<string>)
    ensures path.NonUtf8Path? ==> r == Err(PathNotUtf8)
    ensures path.Utf8Path? ==> r == Ok(Uri(path.text))
  {
    if path.NonUtf8Path? {
      return Err(PathNotUtf8);
    }
    var p := path.text;
    var uri := UriScheme;
    var i := 0;
    while i < |p|
      invariant 0 <= i <= |p|
      invariant uri == UriScheme + Escape(p[..i])
    {
      var c := p[i];
      if c == '#' {
        uri := uri + "%23";
      } else if c == '?' {
        uri := uri + "%3f";
      } else {
        uri := uri + [c];
      }
      assert p[..i + 1] == p[..i] + [c];
      EscapeSnoc(p[..i], c);
      i := i + 1;
    }
    assert p[..i] == p;
    uri := uri + UriQuery;
    return Ok(uri);
  }

  /** The URI always opens with `file:` and closes with `?immutable=1`. */
  lemma UriShape(p: string)
    ensures |Uri(p)| >= |UriScheme| + |UriQuery|
    ensures Uri(p)[..|UriScheme|] == "file:"
    ensures Uri(p)[|Uri(p)| - |UriQuery|..] == "?immutable=1"
  {
  }

  /** The escaped path holds no `#` and no `?`. */
  lemma {:induction false} EscapeHasNoDelimiters(p: string)
    ensures '#' !in Escape(p) && '?' !in Escape(p)
  {
    if p != [] {
      EscapeHasNoDelimiters(p[1..]);
    }
  }

  /** Escaping adds two characters for every `#` and every `?`. */
  lemma {:induction false} EscapeLength(p: string)
    ensures |Escape(p)| == |p| + 2 * (Count(p, '#') + Count(p, '?'))
  {
    if p != [] {
      EscapeLength(p[1..]);
    }
  }

  /** The URI is 17 characters longer than the path, plus two for every
      `#` and every `?` in it. */
  lemma UriLength(p: string)
    ensures |Uri(p)| == 5 + |p| + 2 * (Count(p, '#') + Count(p, '?')) + 12
  {
    EscapeLength(p);
  }

  /** A path is left as it is by escaping exactly when it holds neither `#`
      nor `?`; then its URI is `file:`, the path and `?immutable=1`. */
  lemma {:induction false} EscapeIdentity(p: string)
    ensures Escape(p) == p <==> '#' !in p && '?' !in p
    ensures '#' !in p && '?' !in p ==> Uri(p) == "file:" + p + "?immutable=1"
  {
    if '#' !in p && '?' !in p {
      if p != [] {
        EscapeIdentity(p[1..]);
        assert [p[0]] + p[1..] == p;
      }
    } else {
      EscapeLength(p);
    }
  }

  // ---------------------------------------------------------------------
  // How SQLite reads a URI filename (sqlite3 URI filenames): after `file:`,
  // the path runs to the first `?` (start of the query) or `#` (start of the
  // fragment), and `%HH` in it stands for the character with hex code HH.

  predicate IsHexDigit(c: char)
  {
    '0' <= c <= '9' || 'a' <= c <= 'f' || 'A' <= c <= 'F'
  }

  function HexValue(c: char): (v: nat)
    requires IsHexDigit(c)
    ensures v < 16
  {
    if '0' <= c <= '9' then (c as int) - ('0' as int)
    else if 'a' <= c <= 'f' then (c as int) - ('a' as int) + 10
    else (c as int) - ('A' as int) + 10
  }

  /** The file name part of the text after `file:`, decoded. */
  function DecodePath(s: string): string
  {
    if s == [] || s[0] == '?' || s[0] == '#' then ""
    else if s[0] == '%' && |s| >= 3 && IsHexDigit(s[1]) && IsHexDigit(s[2]) then
      [(HexValue(s[1]) * 16 + HexValue(s[2])) as char] + DecodePath(s[3..])
    else [s[0]] + DecodePath(s[1..])
  }

  /** The query part of the text after `file:`: what follows the first `?`,
      up to the fragment. */
  function QueryOf(s: string): string
  {
    if s == [] || s[0] == '#' then ""
    else if s[0] == '?' then TakeUntilFragment(s[1..])
    else QueryOf(s[1..])
  }

  function TakeUntilFragment(s: string): string
  {
    if s == [] || s[0] == '#' then "" else [s[0]] + TakeUntilFragment(s[1..])
  }

  /** A URI filename as SQLite reads it. An authority (`file://...`) is not
      part of this reading. */
  datatype UriReading = FileUri(filename: string, query: string) | OtherUri

  function ReadUri(uri: string): UriReading
  {
    if |uri| >= 5 && uri[..5] == "file:" && !(|uri| >= 7 && uri[5..7] == "//") then
      FileUri(DecodePath(uri[5..]), QueryOf(uri[5..]))
    else OtherUri
  }

  predicate StartsWithTwoSlashes(p: string)
  {
    |p| >= 2 && p[..2] == "//"
  }

  /** SQLite decodes the escape of any character other than `%` back to
      that character. */
  lemma DecodeEscapedChar(c: char, e: string)
    requires c != '%'
    ensures DecodePath(EscapeChar(c) + e) == [c] + DecodePath(e)
  {
    var s := EscapeChar(c) + e;
    if c == '#' {
      assert s[0] == '%' && s[1] == '2' && s[2] == '3' && s[3..] == e;
      assert (HexValue('2') * 16 + HexValue('3')) as char == '#';
    } else if c == '?' {
      assert s[0] == '%' && s[1] == '3' && s[2] == 'f' && s[3..] == e;
      assert (HexValue('3') * 16 + HexValue('f')) as char == '?';
    } else {
      assert s[0] == c && s[1..] == e;
    }
  }

  lemma {:induction false} DecodeEscaped(p: string, rest: string)
    requires '%' !in p
    requires rest == [] || rest[0] == '?' || rest[0] == '#'
    ensures DecodePath(Escape(p) + rest) == p
  {
    if p == [] {
      assert Escape(p) + rest == rest;
    } else {
      DecodeEscaped(p[1..], rest);
      assert Escape(p) + rest == EscapeChar(p[0]) + (Escape(p[1..]) + rest);
      DecodeEscapedChar(p[0], Escape(p[1..]) + rest);
      assert [p[0]] + p[1..] == p;
    }
  }

  /** No escape holds a `?` or a `#`, so the query is found after it. */
  lemma QueryAfterEscapedChar(c: char, e: string)
    ensures QueryOf(EscapeChar(c) + e) == QueryOf(e)
  {
    var s := EscapeChar(c) + e;
    if c == '#' || c == '?' {
      assert s[0] == '%' && s[1] != '?' && s[1] != '#' && s[2] != '?' && s[2] != '#';
      assert s[1..][1..] == s[2..] && s[2..][1..] == s[3..] && s[3..] == e;
      assert QueryOf(s) == QueryOf(s[1..]);
      assert QueryOf(s[1..]) == QueryOf(s[2..]);
      assert QueryOf(s[2..]) == QueryOf(s[3..]);
    } else {
      assert s[0] == c && s[1..] == e;
    }
  }

  lemma {:induction false} QueryAfterEscaped(p: string)
    ensures QueryOf(Escape(p) + UriQuery) == "immutable=1"
  {
    if p == [] {
      assert Escape(p) + UriQuery == UriQuery;
      QueryOfImmutable();
    } else {
      QueryAfterEscaped(p[1..]);
      assert Escape(p) + UriQuery == EscapeChar(p[0]) + (Escape(p[1..]) + UriQuery);
      QueryAfterEscapedChar(p[0], Escape(p[1..]) + UriQuery);
    }
  }

  lemma {:induction false} TakeWithoutFragment(s: string)
    requires '#' !in s
    ensures TakeUntilFragment(s) == s
  {
    if s != [] {
      TakeWithoutFragment(s[1..]);
      assert [s[0]] + s[1..] == s;
    }
  }

  lemma QueryOfImmutable()
    ensures QueryOf(UriQuery) == "immutable=1"
  {
    assert UriQuery[0] == '?' && UriQuery[1..] == "immutable=1";
    TakeWithoutFragment("immutable=1");
  }

  /** The text after `file:` starts with `//` exactly when the path does. */
  lemma EscapedKeepsLeadingSlashes(p: string)
    ensures var s := Escape(p) + UriQuery;
      (|s| >= 2 && s[..2] == "//") <==> StartsWithTwoSlashes(p)
  {
    var s := Escape(p) + UriQuery;
    if p == [] {
      assert s == UriQuery;
      assert s[0] == '?';
    } else if p[0] != '/' {
      assert s[0] == EscapeChar(p[0])[0] != '/';
    } else if |p| == 1 {
      assert s == "/" + UriQuery;
      assert s[1] == '?';
    } else {
      assert s == [p[0]] + EscapeChar(p[1]) + Escape(p[2..]) + UriQuery;
      assert s[1] == EscapeChar(p[1])[0];
    }
  }

  /** For a path without `%`, SQLite reads back from the URI exactly the
      path and the query `immutable=1`. */
  lemma UriRoundTrip(p: string)
    requires '%' !in p
    requires !StartsWithTwoSlashes(p)
    ensures ReadUri(Uri(p)) == FileUri(p, "immutable=1")
  {
    var u := Uri(p);
    assert u[..5] == "file:";
    assert u[5..] == Escape(p) + UriQuery;
    EscapedKeepsLeadingSlashes(p);
    assert u[5..7] == u[5..][..2];
    DecodeEscaped(p, UriQuery);
    QueryAfterEscaped(p);
  }

  /** As written, the URI of a path holding `%23` names another file:
      SQLite reads `%23` as `#`, because `%` itself is not escaped. The path
      `%23` comes back as `#`. */
  lemma PercentInPathMisread()
    ensures ReadUri(Uri("%23")) == FileUri("#", "immutable=1")
  {
    var p := "%23";
    EscapeIdentity(p);
    var t := p + UriQuery;
    assert Uri(p)[..5] == "file:" && Uri(p)[5..] == t;
    assert t[0] == '%' && t[1] == '2' && t[2] == '3' && t[3..] == UriQuery;
    assert (HexValue('2') * 16 + HexValue('3')) as char == '#';
    assert DecodePath(t) == "#";
    QueryAfterEscaped(p);
  }

  /** The escape that also encodes `%` itself, as `%25`. */
  function EscapeCharCorrected(c: char): string
  {
    if c == '%' then "%25" else EscapeChar(c)
  }

  function EscapeCorrected(p: string): string
  {
    if p == [] then "" else EscapeCharCorrected(p[0]) + EscapeCorrected(p[1..])
  }

  /** The URI filename built with the corrected escape. */
  function UriCorrected(p: string): string
  {
    UriScheme + EscapeCorrected(p) + UriQuery
  }

  /** The correction changes nothing for a path without `%`. */
  lemma {:induction false} CorrectedAgreesWithoutPercent(p: string)
    requires '%' !in p
    ensures UriCorrected(p) == Uri(p)
  {
    EscapeCorrectedAgrees(p);
  }

  lemma {:induction false} EscapeCorrectedAgrees(p: string)
    requires '%' !in p
    ensures EscapeCorrected(p) == Escape(p)
  {
    if p != [] {
      EscapeCorrectedAgrees(p[1..]);
    }
  }

  lemma {:induction false} DecodeEscapedCorrected(p: string, rest: string)
    requires rest == [] || rest[0] == '?' || rest[0] == '#'
    ensures DecodePath(EscapeCorrected(p) + rest) == p
  {
    if p == [] {
      assert EscapeCorrected(p) + rest == rest;
    } else {
      var e := EscapeCorrected(p[1..]) + rest;
      DecodeEscapedCorrected(p[1..], rest);
      assert EscapeCorrected(p) + rest == EscapeCharCorrected(p[0]) + e;
      if p[0] == '%' {
        var s := EscapeCharCorrected(p[0]) + e;
        assert s[0] == '%' && s[1] == '2' && s[2] == '5' && s[3..] == e;
        assert (HexValue('2') * 16 + HexValue('5')) as char == '%';
      } else {
        DecodeEscapedChar(p[0], e);
      }
      assert [p[0]] + p[1..] == p;
    }
  }

  lemma {:induction false} QueryAfterEscapedCorrected(p: string)
    ensures QueryOf(EscapeCorrected(p) + UriQuery) == "immutable=1"
  {
    if p == [] {
      assert EscapeCorrected(p) + UriQuery == UriQuery;
      QueryOfImmutable();
    } else {
      var e := EscapeCorrected(p[1..]) + UriQuery;
      QueryAfterEscapedCorrected(p[1..]);
      assert EscapeCorrected(p) + UriQuery == EscapeCharCorrected(p[0]) + e;
      if p[0] == '%' {
        var s := EscapeCharCorrected(p[0]) + e;
        assert s[0] == '%' && s[1] == '2' && s[2] == '5';
        assert s[1..][1..] == s[2..] && s[2..][1..] == s[3..] && s[3..] == e;
        assert QueryOf(s) == QueryOf(s[1..]);
        assert QueryOf(s[1..]) == QueryOf(s[2..]);
        assert QueryOf(s[2..]) == QueryOf(s[3..]);
      } else {
        QueryAfterEscapedChar(p[0], e);
      }
    }
  }

  lemma EscapedCorrectedKeepsLeadingSlashes(p: string)
    ensures var s := EscapeCorrected(p) + UriQuery;
      (|s| >= 2 && s[..2] == "//") <==> StartsWithTwoSlashes(p)
  {
    var s := EscapeCorrected(p) + UriQuery;
    if p == [] {
      assert s == UriQuery;
      assert s[0] == '?';
    } else if p[0] != '/' {
      assert s[0] == EscapeCharCorrected(p[0])[0] != '/';
    } else if |p| == 1 {
      assert s == "/" + UriQuery;
      assert s[1] == '?';
    } else {
      assert s == [p[0]] + EscapeCharCorrected(p[1]) + EscapeCorrected(p[2..]) + UriQuery;
      assert s[1] == EscapeCharCorrected(p[1])[0];
    }
  }

  /** With `%` escaped too, SQLite reads back every path (other than one
      starting with `//`, which would name an authority) and the query
      `immutable=1`. */
  lemma CorrectedUriRoundTrip(p: string)
    requires !StartsWithTwoSlashes(p)
    ensures ReadUri(UriCorrected(p)) == FileUri(p, "immutable=1")
  {
    var u := UriCorrected(p);
    assert u[..5] == "file:";
    assert u[5..] == EscapeCorrected(p) + UriQuery;
    EscapedCorrectedKeepsLeadingSlashes(p);
    assert u[5..7] == u[5..][..2];
    DecodeEscapedCorrected(p, UriQuery);
    QueryAfterEscapedCorrected(p);
  }

  // ---------------------------------------------------------------------
  // Decoding one row

  /** The stored sameSite code, decoded. Codes 0 and 1 both mean Lax. */
  function DecodeSameSite(code: i64): (r: Result<SameSite>)
    ensures r.Ok? <==> 0 <= code <= 2
    ensures r == Ok(Lax) <==> code == 0 || code == 1
    ensures r == Ok(Strict) <==> code == 2
    ensures r != Ok(None)
    ensures r.Err? ==> r.error == UnknownSameSite(code)
  {
    match code
    case 0 | 1 => Ok(Lax)
    case 2 => Ok(Strict)
    case _ => Err(UnknownSameSite(code))
  }

  /** The cookie a row stands for. */
  function RowToCookie(row: Row): (r: Result<Cookie>)
    ensures r.Ok? <==> 0 <= row.sameSite <= 2
    ensures r.Err? ==> r.error == UnknownSameSite(row.sameSite)
    ensures r.Ok? ==>
      && r.value.host == row.host && r.value.path == row.path
      && r.value.name == row.name && r.value.value == row.value
      && r.value.expiry == row.expiry
      && (r.value.isSecure <==> row.isSecure != 0)
      && (r.value.isHttpOnly <==> row.isHttpOnly != 0)
      && Ok(r.value.sameSite) == DecodeSameSite(row.sameSite)
  {
    var isSecure := row.isSecure != 0;
    var isHttpOnly := row.isHttpOnly != 0;
    match DecodeSameSite(row.sameSite)
    case Err(e) => Err(e)
    case Ok(sameSite) =>
      Ok(Cookie(row.host, row.path, row.name, row.value, row.expiry, isSecure, isHttpOnly, sameSite))
  }

  /** How Firefox stores a cookie: flags as 0 or 1, Lax as 1, Strict as 2
      (and None, which the reader never produces, as 0). */
  function CookieToRow(c: Cookie): Row
  {
    Row(c.host, c.path, c.name, c.value, c.expiry,
      if c.isSecure then 1 else 0,
      if c.isHttpOnly then 1 else 0,
      match c.sameSite case None => 0 case Lax => 1 case Strict => 2)
  }

  /** Every cookie with a Lax or Strict attribute survives storing and
      decoding unchanged. */
  lemma CookieRowRoundTrip(c: Cookie)
    requires c.sameSite != None
    ensures RowToCookie(CookieToRow(c)) == Ok(c)
  {
  }

  /** Every decodable row whose flags are 0 or 1 and whose sameSite code is
      1 or 2 is what storing its cookie gives back. */
  lemma RowCookieRoundTrip(row: Row)
    requires row.isSecure in {0, 1} && row.isHttpOnly in {0, 1}
    requires row.sameSite == 1 || row.sameSite == 2
    ensures RowToCookie(row).Ok? && CookieToRow(RowToCookie(row).value) == row
  {
  }

  // ---------------------------------------------------------------------
  // Collecting all rows

  /** The cookies of all rows in row order, or the error of the first row
      that does not decode. */
  function DecodeAll(rows: seq<Row>): Result<seq<Cookie>>
  {
    if rows == [] then Ok([])
    else match RowToCookie(rows[0])
      case Err(e) => Err(e)
      case Ok(c) =>
        match DecodeAll(rows[1..])
        case Err(e) => Err(e)
        case Ok(cs) => Ok([c] + cs)
  }

  /** The read succeeds exactly when every row decodes, and then yields one
      cookie per row, in row order. */
  lemma {:induction false} DecodeAllSucceeds(rows: seq<Row>)
    ensures DecodeAll(rows).Ok? <==> forall i :: 0 <= i < |rows| ==> RowToCookie(rows[i]).Ok?
    ensures DecodeAll(rows).Ok? ==>
      |DecodeAll(rows).value| == |rows|
      && forall i :: 0 <= i < |rows| ==> DecodeAll(rows).value[i] == RowToCookie(rows[i]).value
  {
    if rows != [] {
      DecodeAllSucceeds(rows[1..]);
      assert forall i :: 1 <= i < |rows| ==> rows[i] == rows[1..][i - 1];
    }
  }

  /** A failing row fails the whole read with its own error when every row
      before it decodes: no partial list is returned. */
  lemma {:induction false} DecodeAllFirstError(rows: seq<Row>, k: nat)
    requires k < |rows|
    requires forall i :: 0 <= i < k ==> RowToCookie(rows[i]).Ok?
    requires RowToCookie(rows[k]).Err?
    ensures DecodeAll(rows) == Err(RowToCookie(rows[k]).error)
  {
    if k > 0 {
      assert forall i :: 0 <= i < k - 1 ==> rows[1..][i] == rows[i + 1];
      DecodeAllFirstError(rows[1..], k - 1);
    }
  }

  /** Reads the cookies of a database: builds its URI (opening the
      connection and running the query are not modelled; `rows` is what the
      query yields), then decodes the rows in order, stopping at the first
      one that fails. */
  method ReadCookiesDb(path: OsPath, rows: seq<Row>) returns (r: Result<seq<Cookie>>)
    ensures path.NonUtf8Path? ==> r == Err(PathNotUtf8)
    ensures path.Utf8Path? ==> r == DecodeAll(rows)
  {
    var uri := MakeUri(path);
    if uri.Err? {
      return Err(uri.error);
    }
    var cookies: seq<Cookie> := [];
    var i := 0;
    while i < |rows|
      invariant 0 <= i <= |rows|
      invariant |cookies| == i
      invariant forall j :: 0 <= j < i ==> RowToCookie(rows[j]).Ok? && cookies[j] == RowToCookie(rows[j]).value
    {
      var c := RowToCookie(rows[i]);
      if c.Err? {
        DecodeAllFirstError(rows, i);
        return Err(c.error);
      }
      cookies := cookies + [c.value];
      i := i + 1;
    }
    DecodeAllSucceeds(rows);
    assert cookies == DecodeAll(rows).value;
    return Ok(cookies);
  }

  // ---------------------------------------------------------------------
  // Scenarios

  /** One secure, non-HttpOnly row with sameSite 1 renders as the line
      `example.com\tFALSE\t/\tTRUE\t1999999999\tsid\tabc123`. */
  lemma ExampleRowRendered()
    ensures var r := DecodeAll([Row("example.com", "/", "sid", "abc123", 1999999999, 1, 0, 1)]);
      r.Ok? && |r.value| == 1
      && Line(r.value[0]) == "example.com\tFALSE\t/\tTRUE\t1999999999\tsid\tabc123"
  {
    ExampleLine();
  }

  /** A row with sameSite 5 fails the read even between good rows. */
  lemma ExampleUnknownSameSite()
    ensures DecodeAll([
      Row("a.example", "/", "x", "1", 0, 0, 0, 1),
      Row("b.example", "/", "y", "2", 0, 0, 0, 5),
      Row("c.example", "/", "z", "3", 0, 0, 0, 2)]) == Err(UnknownSameSite(5))
  {
  }
}
