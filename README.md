# firefox-cookie, modelled in Dafny

firefox-cookie converts Firefox's cookie database (`cookies.sqlite`) into a
Netscape `cookies.txt` file. This project models the core of that process:

- **Reading the database** (`db.dfy`, module `Db`; source `src/db.rs`).
  - `MakeUri` builds the SQLite URI filename for the database path. It starts with `file:`. In the path, `#` becomes `%23` and `?` becomes `%3f`. It ends with `?immutable=1`. A path with no UTF-8 form is an error.
  - `RowToCookie` decodes one typed `moz_cookies` row. Each flag is true when it is nonzero. The sameSite code maps as follows: 0 and 1 give Lax, 2 gives Strict, and any other code is an error.
  - `ReadCookiesDb` decodes all rows in order, all or nothing.
- **Rendering a cookie** (`cookie.dfy`, module `Cookies`; source `src/cookie.rs`).
  - `Fmt` is the `Display` implementation. It writes one line of seven tab-separated columns to a `Formatter`: domain (with `#HttpOnly_` in front for HttpOnly cookies), host-only flag, path, secure flag, expiry, name, value.
  - The host-only flag is computed from whether the host starts with `.`. Flags are written as `TRUE`/`FALSE`.
- **Text helpers** (`text.dfy`, module `Text`): tab joining and splitting, character counts, and the decimal rendering Rust uses for an `i64`.

Both methods that build text step by step are proved equal to a pure function:
- `MakeUri` builds the URI in a loop and is proved equal to `Uri`.
- `Fmt` writes to the formatter one piece at a time and is proved equal to `Line`.

The properties are proved as lemmas about those two functions.

To give the URI a partner, the model includes a reading of URI filenames as SQLite does it (`ReadUri`). The path runs up to the first `?` or `#`, and `%HH` decodes to the character with hex code HH. The query is what follows the `?`. This reading is the model's own; SQLite's source is not part of this model.

The query's rows are an input, `seq<Row>`, already typed. The path is an `OsPath`: either a UTF-8 text or a path without one.

## Model

| member | source | states |
|---|---|---|
| `Db.MakeUri` | src/db.rs:48-73 | a non-UTF-8 path gives the error PathNotUtf8; otherwise the URI built character by character equals `Uri(path)` = `file:` + escaped path + `?immutable=1` |
| `Db.UriShape` | src/db.rs:52-70 | every URI begins with `file:` and ends with `?immutable=1` |
| `Db.EscapeHasNoDelimiters` | src/db.rs:60-66 | the escaped path holds no `#` and no `?` |
| `Db.EscapeLength` | src/db.rs:60-66 | escaping adds exactly two characters per `#` and per `?` |
| `Db.UriLength` | src/db.rs:51-70 | URI length = 5 + path length + 2 × (number of `#` and `?`) + 12 |
| `Db.EscapeIdentity` | src/db.rs:52-70 | escaping leaves a path unchanged if and only if it has no `#` and no `?`; such a path's URI is `file:` + path + `?immutable=1` |
| `Db.UriRoundTrip` | src/db.rs:54-70 | for a path without `%` (and not starting with `//`), SQLite reads back exactly that path and the query `immutable=1`: each `#`/`?` came back from its escape, everything else in order |
| `Db.PercentInPathMisread` | src/db.rs:54-66 | as written, the path `%23` is read back by SQLite as the different file `#` |
| `Db.CorrectedUriRoundTrip` | src/db.rs:54-66 | with `%` also escaped (as `%25`), SQLite reads back every path not starting with `//`, with the query `immutable=1` |
| `Db.CorrectedAgreesWithoutPercent` | src/db.rs:60-66 | the corrected URI equals the original for every path without `%` |
| `Db.DecodeSameSite` | src/db.rs:87-92 | code 0 or 1 gives Lax, 2 gives Strict, any other code gives UnknownSameSite(code); decoding never gives None |
| `Db.RowToCookie` | src/db.rs:75-106 | decoding fails exactly when the sameSite code is outside 0..2, with that code; on success host, path, name, value and expiry are copied, each flag is true exactly when it is nonzero, and sameSite is the decoded code |
| `Db.CookieRowRoundTrip` | src/db.rs:85-103 | a Lax or Strict cookie, stored as Firefox stores it, decodes back to itself |
| `Db.RowCookieRoundTrip` | src/db.rs:85-103 | a row with 0/1 flags and sameSite 1 or 2 is what storing its decoded cookie gives |
| `Db.DecodeAllSucceeds` | src/db.rs:40-42 | the read succeeds if and only if every row decodes; it then has one cookie per row, in row order, each the decoded row |
| `Db.DecodeAllFirstError` | src/db.rs:40-42 | if row k fails and all rows before it decode, the whole read fails with row k's error and returns no list |
| `Db.ReadCookiesDb` | src/db.rs:17-45 | a non-UTF-8 path fails with PathNotUtf8; otherwise the loop that collects rows and stops at the first failing one returns `DecodeAll(rows)` |
| `Db.ExampleRowRendered` | src/db.rs:85-103 | the row (`example.com`, `/`, `sid`, `abc123`, 1999999999, 1, 0, 1) is read as one cookie whose line is `example.com\tFALSE\t/\tTRUE\t1999999999\tsid\tabc123` |
| `Db.ExampleUnknownSameSite` | src/db.rs:87-92 | a row with sameSite 5 fails the read with UnknownSameSite(5), even between well-formed rows |
| `Cookies.StrBool` | src/cookie.rs:61-67 | the token is `TRUE` exactly for true and `FALSE` exactly for false |
| `Cookies.Fmt` | src/cookie.rs:19-58 | the formatter's text afterwards is its text before followed by `Line(c)` |
| `Cookies.LineUnfolded` | src/cookie.rs:22-55 | the line is domain, host-only, path, secure, expiry, name and value in that order, with one tab between neighbours |
| `Cookies.LineSplitsIntoColumns` | src/cookie.rs:22-55 | when host, path, name and value hold no tab, splitting the line at tabs gives exactly the seven columns: no extra tab before, between or after them |
| `Cookies.LineTabCount` | src/cookie.rs:27-55 | when host, path, name and value hold no tab, the line holds exactly six tabs |
| `Cookies.LineStartsWithDomain` | src/cookie.rs:23-26 | an HttpOnly cookie's line starts with `#HttpOnly_` + host; any other line starts with the host and a tab |
| `Cookies.HostOnlyColumn` | src/cookie.rs:29-33 | the second column is `TRUE` exactly when the host starts with `.`, and `FALSE` otherwise, whatever the other fields are |
| `Cookies.SecureColumn` | src/cookie.rs:40-42 | the fourth column is `TRUE` exactly when the cookie is secure |
| `Cookies.ExpiryColumn` | src/cookie.rs:44-48 | the fifth column is the expiry's decimal numeral, and reading it back gives the expiry |
| `Cookies.LineEndsWithValue` | src/cookie.rs:54-57 | the line ends with a tab and the value: no trailing tab or newline |
| `Cookies.LineHasNoNewline` | src/cookie.rs:16-19 | when the text fields hold no newline, the line holds none |
| `Cookies.SameSiteNotRendered` | src/cookie.rs:19-57 | two cookies differing only in sameSite render the same line |
| `Cookies.ExampleLine` | src/cookie.rs:22-55 | (`example.com`, `/`, `sid`, `abc123`, 1999999999, secure, not HttpOnly) renders as `example.com\tFALSE\t/\tTRUE\t1999999999\tsid\tabc123` |
| `Cookies.ExampleHttpOnlyLine` | src/cookie.rs:22-55 | the same cookie for `.example.com`, HttpOnly, renders as `#HttpOnly_.example.com\tTRUE\t/\tTRUE\t1999999999\tsid\tabc123` |
| `Text.Decimal` | src/cookie.rs:47 | the expiry's text is nonempty, starts with `-` exactly for negative values, and holds no tab or newline |
| `Text.DecimalRoundTrip` | src/cookie.rs:47 | parsing the decimal text of any integer gives that integer back |
| `Text.SplitJoin` | src/cookie.rs:22-55 | splitting tab-joined, tab-free columns at tabs gives back the columns |

## Left out

- Opening the SQLite connection with the read-only and URI flags, preparing the `SELECT ... FROM moz_cookies` statement and running it (src/db.rs:20-38). These are calls into SQLite and file I/O. The rows the query yields are an input, and the errors these steps raise are not modelled.
- Column extraction with `row.get` and its type errors (src/db.rs:76-83). Rows come already typed.
- The operating system's path encoding. `Path::to_str` is modelled only by the two cases of `OsPath`.
- Errors from `Formatter` writes. Writes always succeed here.
- `src/bin/firefox-cookie.rs`, which is CLI plumbing: argument parsing, the fixed three-line header with its blank line, and printing each cookie line with a newline.
- Windows paths (drive letters, backslashes). The source does not handle them either (src/db.rs:57).
- `ReadUri` does not cover all of SQLite's URI reading. It leaves out URIs with an authority (`file://host/...`), which is why the round-trip lemmas exclude paths starting with `//`. It also leaves out query parameters other than the first query text. `%HH` with HH at 0x80 or above decodes to a byte in SQLite; here it decodes to the character with that code.
- The `Debug` derivations.

## Findings

| source | as written | input that shows it | evidently intended | confidence | as-written member | corrected member |
|---|---|---|---|---|---|---|
| src/db.rs:54-66 | `make_uri` escapes `#` and `?` but copies `%` unchanged, and SQLite decodes `%HH` in a URI filename | path `%23` gives `file:%23?immutable=1`, which SQLite reads as the file `#` | the URI names the given path, so `%` is escaped too (as `%25`) | medium, not executed | `Db.PercentInPathMisread` | `Db.CorrectedUriRoundTrip` |

`MakeUri` models the code as written, because it is the source's behaviour. The corrected escape (`EscapeCorrected`, `UriCorrected`) sits beside it with its round trip proved. `CorrectedAgreesWithoutPercent` shows the two agree on every path without `%`. No other member reads the URI text, because opening the connection is outside the model.
