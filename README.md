# USD→RUB rate server: a Dafny model

The server answers GET requests. A request must carry `Content-Type:
application/json` and a JSON body such as `{"usd": 10}`. The server replies
with the amount, the USD→RUB rate and their product. It gets the rate by
scraping the central bank's page. This project models the two pieces of
logic in `server.py` and proves properties about them:

- **Request classification** (`Handler.do_GET`), in `handler.dfy`. If the
  content type is not exactly `application/json`, the reply is 415. Otherwise
  the body is decoded and the `usd` entry is read, defaulting to the *string*
  `'0'`. If that value is a Python number (int, float or bool) and `>= 0`, it
  is converted with `float()`, status 200 is sent and the rate is fetched.
  Anything else gives 400. The model also covers the ways `do_GET` ends with
  an exception:
  - the body is not JSON, or not a JSON object (so it has no `.get`);
  - the int is too large for `float()`;
  - the rate fetch fails after the 200 status line has already gone out.
- **Rate extraction** (`get_usd_rate`), in `rate_fetcher.dfy`:
  - `re.findall` scans left to right, without overlap, for the literal prefix
    `<div class="col-md-2 col-xs-9 _right mono-num">` and takes the greedy
    `[0-9,]*` run after each occurrence;
  - the second capture is selected;
  - `,` is replaced by `.`;
  - `float()` converts the text to an exact decimal.

`json.dfy` holds the decoded JSON values. A float stays an exact real, or is
one of the three special values `json.loads` accepts: `Infinity`,
`-Infinity` and `NaN`. `wrappers.dfy` holds `Option` and `Result`.

The findall scan jumps over each match. The proof compares it with a
reference that tests every position on its own (`PositionsFrom`). The two
agree because `<` appears in the prefix only as its first character, and a
capture can never contain `<`.

Two consequences of the code are easy to miss. A missing `usd` defaults to
the string `'0'` (server.py:73), which fails the number check, so it gives
400 (`Handler.NonNumberAmountRejected`). JSON booleans pass
`isinstance(usd, int)` (server.py:74), because a Python `bool` is an `int`,
so `true` and `false` are served as 1.0 and 0.0 (`Handler.BoolAmount`).

## Model

| member | source | states |
|---|---|---|
| `RateFetcher.RunEnd` | server.py:13 | the capture after a prefix consists only of `[0-9,]` characters and is the longest such run: it reaches the end of the text or stops before a character outside the class |
| `RateFetcher.FindAll` | server.py:13-15 | every string `findall` returns on the page consists only of digits and commas |
| `RateFetcher.FindAllFrom` | server.py:13-15 | every string `findall` returns consists only of digits and commas |
| `RateFetcher.PositionsFrom` | server.py:13-15 | reference: the positions where the prefix occurs, strictly increasing, each a real occurrence, none missing |
| `RateFetcher.NoOccurrenceInsideMatch` | server.py:13-15 | no occurrence of the prefix starts inside an earlier match, so skipping to the end of a match loses nothing |
| `RateFetcher.FindAllMatchesOccurrences` | server.py:13-15 | `findall` returns one capture per occurrence of the prefix, in left-to-right order, each the run right after that occurrence |
| `RateFetcher.ReplaceCommas` | server.py:16 | `replace(',', '.')` keeps the length and changes each comma into a dot and nothing else |
| `RateFetcher.ReplaceCommasOfCapture` | server.py:13-16 | the replaced capture is made of digits and dots, has a digit exactly when the capture has one, and has as many dots as the capture has commas |
| `RateFetcher.ScanFloatSucceeds` | server.py:16 | the `float()` scan succeeds from any point exactly when a digit has been or will be seen and at most one dot occurs in total |
| `RateFetcher.ScanFloatValue` | server.py:16 | a successful `float()` scan yields the digits read so far followed by the remaining digits, with the number of digits after the dot as the scale |
| `RateFetcher.ParseFloat` | server.py:16 | `float()` of digits and dots succeeds exactly when there is at least one digit and at most one dot, otherwise ValueError; on success the value is all the digits read as one integer, divided by 10 to the number of characters after the dot (`ScanFloatSucceeds`, `ScanFloatValue`, `ParseFormatRoundTrip`) |
| `RateFetcher.ParseFormatRoundTrip` | server.py:16 | `float()` reads back exactly the decimal value printed with a dot |
| `RateFetcher.ConvertCapture` | server.py:16 | a capture converts exactly when it has a digit and at most one comma, otherwise ValueError; on success the value is the capture's digits read as one integer, with the number of characters after the comma as the scale (`ReplaceCommasOfCapture`, `ParseFloat`) |
| `RateFetcher.GetUsdRate` | server.py:12-16 | the fetch failure, and only it, gives the network error; a rate that is obtained is never negative (the rest is `GetUsdRateSpec`) |
| `RateFetcher.GetUsdRateSpec` | server.py:12-16 | the rate is the converted run after the second occurrence of the prefix; IndexError exactly when the prefix occurs fewer than twice; success exactly when that run has a digit and at most one comma |
| `RateFetcher.SecondOccurrenceSelected` | server.py:13-16 | on a page `prefix a prefix b …` the rate comes from `b`, not `a` |
| `RateFetcher.SampleRateConverts` | server.py:16 | the capture `73,3092` converts to the decimal 733092 × 10^-4 |
| `RateFetcher.RateOfSamplePage` | test_server.py:26-27 | any page whose second capture is `73,3092` yields the rate 733092 × 10^-4, whatever the first capture and the text after it |
| `RateFetcher.SampleRateValue` | test_server.py:27 | that rate is the number 73.3092 the test expects |
| `Handler.ToFloat` | server.py:75 | `float()` of a number fails only for an int whose magnitude is at or beyond the overflow bound 2^1024 - 2^970, with OverflowError; an int keeps its value; the converted value passes the `>= 0` test exactly when the original did (`IntAmount`, `BoolAmount`, `FloatAmount`) |
| `Handler.Classify` | server.py:64-75 | 415 exactly when the content type is not `application/json`; then a body that is not JSON, then one that is not a dict, raises; then 400 exactly when the amount is not a number `>= 0`; otherwise the amount converted by `float()` is accepted, or OverflowError is raised (`StatusPartition`) |
| `Handler.Serve` | server.py:77-85 | status 200 is always sent; a full response exactly when the rate is obtained, otherwise the rate error follows the 200 (`ServeSpec`) |
| `Handler.Handle` | server.py:64-93 | status 415, 400 and 200 go exactly with a rejected media type, a rejected amount and an accepted amount; no status exactly when a check raised; 415 and 400 carry their error bodies (`StatusPartition`, `MediaTypeCheckedFirst`, `RateReadOnlyAfterAccept`, `TestScenarios`) |
| `Handler.MediaTypeCheckedFirst` | server.py:64-70 | any content type other than exactly `application/json`, or none, gives 415 with `{"error": "Unsupported Media Type"}`; the body and the page make no difference |
| `Handler.IntAmount` | server.py:73-92 | an int amount gives 400 below zero. From zero up to the float range it is served as that value. Beyond the range it raises OverflowError before anything is sent |
| `Handler.FloatAmount` | server.py:73-92 | a float amount `>= 0`, infinity included, is served unchanged; a negative one, `-Infinity` or `NaN` gives 400 with `{"error": "Bad Request"}` |
| `Handler.BoolAmount` | server.py:74-75 | `true` is served as 1.0 and `false` as 0.0 |
| `Handler.NonNumberAmountRejected` | server.py:73-91 | a missing `usd` (default `'0'`), or a null, string, list or object amount, gives 400 with `{"error": "Bad Request"}` |
| `Handler.NonObjectBodyRaises` | server.py:71-73 | a body that is not JSON, or is JSON but not an object, ends the handler with an exception and nothing sent |
| `Handler.ServeSpec` | server.py:77-85 | an accepted request always gets status 200. If the rate is obtained, besides the `rub` entry that is left out, the body has `currency = "usd"`, `usd` = the converted amount and `rub/usd` = the rate. If the fetch fails, the exception follows the 200 |
| `Handler.StatusPartition` | server.py:64-93 | every request ends in exactly one of: 415, 400, 200, or an exception with nothing sent. Each status occurs exactly under its own condition, and a complete response has status 200, 400 or 415 |
| `Handler.RateReadOnlyAfterAccept` | server.py:77-78 | unless 200 was sent, the reply does not depend on the rate page |
| `Handler.TestScenarios` | test_server.py:8-22 | `{"usd": -10}` gives 400. The form body `usd=10`, which is not JSON and is sent without a `Content-Type` header, gives 415, and so does `text/plain`. `{"usd": 10}` with a page whose second rate is 73,3092 gives 200 with `usd` 10.0 and `rub/usd` 73.3092 |

## Left out

- `requests.get(USD_SITE)` is a network call. The model takes the page text, or a fetch failure, as input (`Fetch`). Any HTTP status of the page is accepted, as in the source. The call has no timeout, so it can also never return, leaving the server stalled after the 200 has gone out; a fetch that never returns is not modelled.
- The HTTP server plumbing is left out because it is stream I/O. This covers `BaseHTTPRequestHandler`, `_set_response`, `send_header`, `wfile.write`, `rfile.read` and `Content-Length` parsing. A reply is reduced to the status sent and the JSON object written.
- `json.loads` / `json.dumps` are library serialisation. The body is taken already decoded. A body that cannot be read or decoded is the single case `Malformed`.
- The header lookup is taken as done (`self.headers.get`, case-insensitive name, first occurrence). The model gets the value of `Content-Type`, or none.
- `ConversionBody`: the `rub` entry, `round(rate * usd, 4)`, is floating-point arithmetic and is not modelled.
- `ToFloat`: the rounding of large ints, and of the rate, to a binary double is not modelled. Values stay exact, and `-0.0` is not told apart from `0.0`. Only the overflow of `float(int)` is kept.
- `ParseFloat`: models `float()` only on texts made of digits and dots, which are the only texts the capture and replacement can produce. Signs, exponents, `inf`/`nan`, whitespace and underscores are not modelled.
- Methods other than GET get a framework-default 501. This is the framework's behaviour, not this code's.
- `print('Get request received')` (server.py:76) is a per-request log line, written on every accepted request between `float(usd)` and the 200; it is output only and is left out.
- `run`, `argparse` and the `settings` module are process start-up and configuration. `settings` is not part of this model.
