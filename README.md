# URL shortener core, modelled in Dafny

This project models the request logic of the URL shortener in `handlers.go`, with the Gin/HTTP layer removed. It has four parts:

- **short-key derivation.** Keyed BLAKE2b-256 is taken over the URL's bytes, with the fixed key `"Hey InfraCloud!"`. The 32-byte digest is encoded in base64url (section 5 of RFC 4648, with padding). The key is the first `ShortenedLen` = 10 characters.
- **the store** `db`. `ShortHandler` writes it with `Store`; `LongHandler` reads it with `Load`.
- **the per-host counters** `metrics`. `IncrementCounter` loads or stores a zero counter, then adds one.
- **the top-3 report** of `MetricsHandler`. The counters are flattened in the order `Range` visits them, then stable-sorted by count, highest first. At most three lines `"<host>: <count>\n"` are printed.

Modules:

- `Base64Url`: the encoder. Its partner is a strict decoder, which also rejects a final group whose unused bits are not zero. The two are proved inverse in both directions, and the alphabet facts are proved.
- `KeyDerivation`: UTF-8 bytes, `DeriveKey`, and the proof that the key depends only on the first 60 bits of the digest.
- `Decimal`: `%d` for non-negative counts.
- `Counters`: the `CounterMap` class and `Tally`, its specification.
- `Ranking`: flattening, the stable sort, the cut to three and the rendering.
- `Shortener`: the `Service` class with `db` and `metrics`, and the three handlers as methods.
- `Workload`: the three scenarios of `main_test.go`, restated as verified methods and lemmas on the model.

Three inputs are parameters of the model:

- **BLAKE2b.** The hash is a function parameter that maps (key, message) to 32 bytes.
- **`url.Parse`.** It is a function parameter that maps a string to its host, or to `None` on a parse error.
- **`ServerListenAddr`.** It is a constructor parameter.

`sync.Map.Range` visits keys in an unspecified order. `Metrics` therefore takes the visit order as an argument and requires it to list every counter key exactly once. The model proves two things about this order:

- Whenever no two hosts share a count, the report is the same for every visit order.
- The test workload's report is `"youtube.com: 4\nlinkedin.com: 3\ngithub.com: 2\n"` for every visit order.

Two behaviours of the code are kept as written:

- `db.Store` overwrites an existing entry. No put-if-absent check is made. A key only ever receives a URL it was derived from (`Service.Valid`). So overwriting is harmless only while no two URLs share a key. When two URLs do share a key, the later one replaces the earlier one (handlers.go lines 54 and 59), and the earlier short URL then redirects to the later URL (`Workload.ShortenColliding`).
- A URL that parses but has an empty host is accepted and counted under the empty host. Only a parse error is rejected.

## Model

| member | source | states |
|---|---|---|
| Base64Url.SextetChar | handlers.go:54 | each 6-bit value maps to a character of the URL-safe alphabet `A-Z a-z 0-9 - _`, and decoding that character gives the value back |
| Base64Url.SextetValue | handlers.go:54 | a character has a 6-bit value exactly when it is in the URL-safe alphabet; the value is below 64 |
| Base64Url.Encode | handlers.go:54 | the padded encoding of n bytes has 4·⌈n/3⌉ characters |
| Base64Url.TripleRoundTrip | handlers.go:54 | the four characters of a full group decode to its three bytes |
| Base64Url.PairRoundTrip | handlers.go:54 | a final two-byte group with one `=` decodes to its two bytes |
| Base64Url.SingleRoundTrip | handlers.go:54 | a final one-byte group with two `=` decodes to its byte |
| Base64Url.DecodeEncode | handlers.go:54 | decoding the encoding of any byte string gives it back, so the encoding is injective |
| Base64Url.EncodeAlphabet | handlers.go:54 | every character before the padding is in the URL-safe alphabet |
| Base64Url.DecodeCanonical | handlers.go:54 | every string the decoder accepts is the encoding of the bytes it decodes to; with DecodeEncode, the encoding at line 54 is the one and only string the decoder accepts for those bytes |
| Base64Url.EncodePadding | handlers.go:54 | the last (3 − n mod 3) mod 3 characters are `=`, and they sit only at the end |
| KeyDerivation.CodePointBytes | handlers.go:52 | one character becomes 1 to 4 UTF-8 bytes, and exactly 1 when it is ASCII |
| KeyDerivation.Utf8 | handlers.go:51-52 | `[]byte(s)` has between \|s\| and 4·\|s\| bytes |
| KeyDerivation.CodePointDecodes | handlers.go:52 | the UTF-8 bytes of a character can be read back: the first byte gives their number, and together they give the character's value |
| KeyDerivation.Utf8Injective | handlers.go:51-52 | different strings have different `[]byte` conversions, so different URLs are different messages to the hash |
| KeyDerivation.DeriveKey | handlers.go:51-54 | for every URL and every hash, the key has exactly `ShortenedLen` = 10 (handlers.go line 20) characters, all in the URL-safe alphabet, and it contains no `=` |
| KeyDerivation.KeyUsesDigestPrefix | handlers.go:54 | two digests that agree on their first 7 bytes and on the high four bits of the 8th give the same key, so the 10-character truncation keeps at most 60 bits of the digest |
| KeyDerivation.EncodePrefix | handlers.go:54 | the first 10 characters of an encoding of 9 or more bytes are determined by the first 8 bytes |
| Decimal.NatToString | handlers.go:105 | `%d` of a count is a non-empty string of digits without a leading zero, and "0" for zero |
| Decimal.NatToStringRoundTrip | handlers.go:105 | reading the printed digits back gives the count |
| Counters.Bump | handlers.go:112-116 | one increment adds the key if absent, sets its counter to the old count plus one, and leaves every other counter as it was |
| Counters.Tally | handlers.go:112-116 | the counters after a sequence of increments hold a counter for the last key incremented |
| Counters.TallyCounts | handlers.go:112-116 | the counters have an entry exactly for the hosts requested, each holding the number of requests for that host (per request, not per distinct URL) |
| Counters.CounterMap.constructor | handlers.go:18 | the counter map starts empty |
| Counters.CounterMap.Increment | handlers.go:112-116 | the new counters are one increment of the old ones: an absent key becomes 1, a present key goes up by 1, other keys are unchanged, and no count decreases; the counters remain the tally of all requests |
| Ranking.Insert | handlers.go:98-100 | inserting adds exactly one entry |
| Ranking.InsertPermutes | handlers.go:98-100 | inserting adds exactly that entry to the multiset of entries |
| Ranking.InsertSorted | handlers.go:98-100 | inserting into a list sorted by count, highest first, keeps it sorted |
| Ranking.SortByCountDesc | handlers.go:98-100 | the sort keeps the number of entries |
| Ranking.SortPermutes | handlers.go:98-100 | the sort is a permutation of the flattened list |
| Ranking.SortSorted | handlers.go:98-100 | the sorted list has counts that never increase |
| Ranking.InsertTies | handlers.go:98-100 | insertion places the new entry ahead of every entry of equal count and keeps their order |
| Ranking.SortKeepsTies | handlers.go:98-100 | the sort is stable: for every count, the entries with that count keep their input order |
| Ranking.StableSortIsUnique | handlers.go:98-100 | any list that is sorted by count and keeps each count's entries in input order equals SortByCountDesc, so the result does not depend on how `sort.SliceStable` works inside |
| Ranking.TopEntries | handlers.go:101-104 | the listed entries are the first min(3, n) entries of the stably sorted list |
| Ranking.RankingShape | handlers.go:98-106 | the report lists min(3, n) entries, a prefix of the stably sorted list, with counts that never increase |
| Ranking.RankingIsTop | handlers.go:98-106 | the listed entries come from the flattened list, and no entry left out has a higher count than a listed one |
| Ranking.RankingKeepsTies | handlers.go:98-106 | for each count, the listed entries with that count are the first entries of the flattened list with that count, in the same order |
| Ranking.Line | handlers.go:105 | a line starts with the host, is longer than the host, and ends in a newline |
| Ranking.LineParses | handlers.go:105 | a line reads back as the host, then `": "`, then digits whose value is the count, then a newline |
| Ranking.Render | handlers.go:101-106 | nothing is printed for no entries; otherwise the output ends in a newline and has at least four characters per entry |
| Ranking.RenderLineCount | handlers.go:101-106 | when no host contains a newline, the output has exactly one line per listed entry |
| Ranking.Flatten | handlers.go:93-97 | the flattened list has one entry per visited key, holding that key and its count, in visit order |
| Ranking.FlattenTies | handlers.go:93-97 | when no two hosts share a count, each count's entries in the flattened list are the single host with that count, in any visit order |
| Ranking.ReportIgnoresRangeOrder | handlers.go:94-100 | when no two hosts share a count, every visit order of `Range` gives the same report |
| Shortener.ShortUrl | handlers.go:57 | the `/long/:blurb` route reads back the key the short URL carries |
| Shortener.StoreKeepsKeyed | handlers.go:59 | storing a URL under its own derived key keeps every stored URL under its own key |
| Shortener.Service.constructor | handlers.go:17-18 | a fresh service has an empty store and no counters |
| Shortener.Service.Shorten | handlers.go:35-67 | a URL that fails to parse is rejected, and neither the store nor the counters change; otherwise the result is the short URL of the derived key, the store gains exactly that key→URL entry, and only the host's counter changes, going up by one; re-shortening a URL already stored leaves the store unchanged |
| Shortener.Service.Store | handlers.go:59 | the store maps the key to the URL, overwriting any earlier entry; when that entry already held the URL, the store is unchanged |
| Shortener.Service.Resolve | handlers.go:72-83 | a URL is found exactly when the key is in the store; it is the stored URL and derives back to the key; nothing changes |
| Shortener.Service.Metrics | handlers.go:87-108 | the report is the rendering of the top entries of the stably sorted flattened counters, for the given visit order |
| Shortener.FlattenCounters | handlers.go:93-97 | the `Range` loop builds exactly the flattened list of the visit order |
| Shortener.WriteTop | handlers.go:101-106 | the output loop prints the first three entries, or all of them when there are fewer |
| Workload.ShortenThenResolve | main_test.go:58-79 | following the short URL returned for a URL that parses redirects to that URL; the store gains the URL under its derived key and the host's counter goes up by one; for a URL that does not parse nothing is found and nothing changes |
| Workload.ShortenTwice | main_test.go:102-124 | shortening the same URL twice returns the same result both times: for a URL that parses, the short URL of its derived key. The store holds the URL under that key, the host's counter takes two increments and no other counter changes; for a URL that does not parse both results are the invalid-URL error and nothing changes |
| Workload.ShortenAll | main_test.go:86-94 | a batch of shorten requests for URLs that parse returns, for each request, the short URL of that URL's derived key; the store is the old store with every URL stored under its key in request order; the counters are the tally of the old requests followed by the batch's hosts |
| Workload.ShortResultsRoute | handlers.go:57 | each answer of a batch is a short URL, one per URL, whose `/long/:blurb` route carries that URL's derived key |
| Workload.StoreAll | handlers.go:59 | storing a batch of URLs keeps every earlier key, holds a key for every URL of the batch, maps the last URL's key to that URL, and keeps every stored URL under its own derived key |
| Workload.ShortenColliding | handlers.go:54-59 | when two different URLs derive the same key, shortening both and then resolving the first one's short URL gives the second URL |
| Workload.TallyOfRequests | main_test.go:24-55 | the ten test requests give github.com 2, linkedin.com 3, youtube.com 4 and gobyexample.com 1 (the repeated YouTube URL counts twice) |
| Workload.FirstSeenReport | main_test.go:98 | in first-seen order, the workload's counts give the expected three lines |
| Workload.ReportOfFour | main_test.go:98 | for four different hosts with the workload's counts, every visit order gives the expected three lines |
| Workload.WorkloadReport | main_test.go:98 | the expected report is `"youtube.com: 4\nlinkedin.com: 3\ngithub.com: 2\n"` for every visit order of `Range` |
| Workload.MetricsWorkload | main_test.go:83-99 | the ten requests on a fresh service, followed by the metrics request, produce exactly the expected report |

## Left out

- The Gin/HTTP layer is not modelled. This covers JSON binding and its 400 on a malformed body, status codes, the `Location` header and writes to `c.Writer`. Results are return values instead.
- `slog` logging is left out, because it does not change behaviour.
- Concurrency is not modelled: `sync.Map`, `atomic.Int64` and concurrent handlers. Both maps are plain sequential fields, so lost or interleaved updates cannot be stated.
- BLAKE2b's internals come from a foreign library, so the hash is a parameter that returns 32 bytes. Collision resistance is probabilistic and is not stated.
- `url.Parse`'s internals are library code, so the parser is a parameter that returns the host or a parse error.
- `sync.Map.Range` has an unspecified iteration order, so the order is an argument of `Metrics`.
- main.go is not part of this model. It is an older copy of the handlers, with an untruncated key and an empty metrics handler, plus server start-up and routing. Only `ServerListenAddr` is used, as an opaque constructor parameter. Its value there, `"http://localhost:3000"`, already carries a scheme, so the format of handlers.go line 57 yields `http://http://localhost:3000/long/<key>`; the model keeps that format unchanged.
- `clearRunningMetrics` is a test reset. The workload starts from a fresh service instead.
- Counters.CounterMap.Increment: does not model the int64 wrap-around of `atomic.Int64.Add`. Counts are unbounded naturals, because a wrap needs 2^63 requests.
- Ranking.SortByCountDesc: does not model the in-place algorithm of `sort.SliceStable`. It is a pure stable insertion sort, and `StableSortIsUnique` shows that every stable sort by count gives the same list.
- Decimal.NatToString: prints only non-negative counts, because the modelled counters cannot go negative.
- KeyDerivation.Utf8: a Dafny `char` is a Unicode scalar value, so Go strings holding invalid UTF-8 byte sequences cannot be expressed.
