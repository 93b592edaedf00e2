# Byte-range core of the S3 HTTP proxy

This project models the byte-range logic of an HTTP gateway that streams objects from an S3-compatible store to HTTP clients. It has three parts.

- **Range header parser** (`RangeHeader`, `parseRangeHeader`). It takes the `Range` header text and the object's size. It returns a `Range` or one of three errors, checked in this order: format, out-of-bounds, start-after-end. It understands only `bytes=<first>-<last>`. The pattern `bytes=(\d+?)-(\d+?)$` is written by hand as `MatchRange`. The pattern has no `^`, and Go's `$` matches only at the end of the text, so the header must *end* in `bytes=`, digits, `-`, digits. `MatchSound` and `MatchComplete` pin the recogniser to that language in both directions. `strconv.ParseInt` overflow is modelled as Go does it: the value becomes `MaxInt64`.
- **Bounded range reader** (`RangeReading`, `RangeReader`). It is a class with a mutable cursor `index` over a random-access handle (`Storage.ObjectHandle`, an `io.ReaderAt` holding the object's bytes). `Read` writes into the caller's `array<byte>`, exactly as `ranger-reader.go` does, and its contract ties every call to `ReadStep`, a function that states the call's branches. `ReadAll` is the consumer loop that `io.Copy` runs over the reader. It proves that the successive reads always concatenate to a prefix of the requested range. They give the whole range followed by EOF when the handle does not report EOF on the read that reaches the object's end (or the range stops before that end). With the corrected large-buffer branch (see "## Findings") they give the whole range for every handle that does not fail.
- **Handler decisions** (`Handlers`). These are `getS3File` and `getS3FileInfo`. The answers of `StatObject` and `GetObject` are inputs. The handlers compute the status (500/400/200/206), the `Content-Type` of error replies, `Accept-Ranges`, `Content-Disposition` and `Content-Length`, and what the body is. A ghost `closed` flag on the handle records the deferred `Close`.

Where the code and the design description differ, the model follows the code:
- A `Range` capture can never be empty, because `\d+?` needs a digit. So the defaults "start 0" and "end size - 1" (request-handlers.go:40-46) never apply (`ParseCaptures`). An empty start is not read as 0: `bytes=-5` is a format error (`SuffixRangeRejected`).
- An unsatisfiable range gets 400, not 416.
- A 206 response carries no `Content-Range` header.

## Model

| member | source | states |
|---|---|---|
| `Storage.ReadAtResult` | ranger-reader.go:37-43 | the handle's `io.ReaderAt` answer: never more than asked; a short read always carries an error; a healthy backend delivers min(len, size - off) bytes from an offset inside the object, and (0, EOF) at or past its end, and reports no error but EOF; a failed backend delivers nothing |
| `Storage.ObjectHandle.ReadAt` | ranger-reader.go:37 | fills the front of the buffer with the object's bytes at the offset; the rest of the buffer is untouched |
| `Storage.ObjectHandle.Close` | request-handlers.go:89 | marks the handle closed and returns the backend's answer |
| `RangeReading.RangeReader.constructor` | request-handlers.go:117-121 | a reader over a validated range starts with cursor 0, whose effective position is the range's start |
| `RangeReading.RangeReader.Close` | ranger-reader.go:23-25 | closes the underlying handle and passes its error back unchanged |
| `RangeReading.ReadStep` | ranger-reader.go:27-52 | one `Read` call from a cursor (as written, or with the corrected large-buffer branch): the cursor stays within [start, end+1] and never decreases, it advances by exactly the count returned, the count never exceeds the buffer, the handle is never asked for a byte past `End`, and an exhausted reader gives (0, EOF) and keeps its cursor |
| `RangeReading.ReadStepProgress` | ranger-reader.go:27-52 | with a non-empty buffer, a call without error moves the cursor forward; with a handle that holds the whole range, the only error is EOF and it comes with the cursor at End+1, provided (as written) the handle reports EOF only on short reads or the range stops before the object's end, and for every non-failing handle when corrected |
| `RangeReading.ReadStepLosesFinalChunk` | ranger-reader.go:42-46 | whenever the range reaches the object's end, the buffer is longer than what remains and the handle reports EOF with the last bytes, `Read` as written returns (0, EOF) and keeps its cursor, while the corrected call returns all remaining bytes and reaches End+1 |
| `RangeReading.RangeReader.Read` | ranger-reader.go:27-52 | the call is `ReadStep` from the reader's cursor: `index > End` gives (0, EOF) and changes nothing; on the first call the cursor moves to `Start`; a buffer no larger than the remainder gets ReadAt's count and error, and the cursor advances by that count; a larger buffer whose fetch of the remainder fails gets (0, err) and keeps the cursor; one whose fetch succeeds gets exactly the bytes [cursor, End] and the cursor becomes End+1; the returned bytes are the object's bytes from the cursor, and the rest of the buffer is untouched; with `corrected` set, EOF that comes with all remaining bytes counts as success |
| `RangeReading.ReadRest` | ranger-reader.go:42-51 | the large-buffer branch: an error from fetching the `rem` remaining bytes gives (0, err) (as written any error, corrected any error but EOF with all `rem` bytes); otherwise exactly those `rem` bytes land at the front of the buffer, with no error |
| `RangeReading.BufferRead` | ranger-reader.go:48-49 | `bytes.Buffer.Read`: copies min(len(p), len(src)) bytes of the source to the front of p and leaves the rest; an empty source gives EOF unless p is empty |
| `RangeReading.ReadChunk` | ranger-reader.go:27-52 | one round of the consumer: the bytes returned are exactly the object's bytes from the old cursor to the new one; a round without error moves forward; a round ends with an error other than EOF, or before End+1, only on a failing handle, or (as written) on a handle reporting EOF at the object's end |
| `RangeReading.ReadAll` | ranger-reader.go:27-52 | reading with any positive buffer sizes delivers a prefix of the range and always ends with an error; with a handle that covers the range and reports EOF only on short reads, it delivers exactly `content[Start..End+1]`, ends with EOF, and leaves the reader exhausted; over the corrected read this holds for every non-failing handle |
| `RangeReading.LostFinalChunk` | ranger-reader.go:42-46 | counterexample: range [1, 2] of a 3-byte object, an 8-byte buffer, and a handle that reports EOF on the read reaching the end; `Read` returns (0, EOF) with the cursor still at 1 |
| `RangeReading.FinalChunkKept` | ranger-reader.go:42-51 | the same call on the corrected `Read` returns the range's 2 bytes and no error |
| `RangeHeader.TrailingDigits` | request-handlers.go:19 | the length of the maximal run of digits that ends a text |
| `RangeHeader.MatchRange` | request-handlers.go:19 | the recogniser of the pattern: both captures are non-empty numerals; `MatchSound` and `MatchComplete` pin the language it accepts |
| `RangeHeader.NoMatchWithoutPrefix` | request-handlers.go:19 | `numeral-numeral` at the end of a text matches only when `bytes=` comes right before it |
| `RangeHeader.MatchSound` | request-handlers.go:19 | whatever the recogniser accepts is leading text, `bytes=`, a non-empty numeral, `-`, and a non-empty numeral at the very end, with those numerals as the captures |
| `RangeHeader.MatchComplete` | request-handlers.go:19 | every text of that shape is accepted, whatever leads it, and its two numerals are the captures |
| `RangeHeader.ParseInt64` | request-handlers.go:34-37 | `strconv.ParseInt` with its error dropped: the numeral's value, or MaxInt64 on overflow, always in [0, MaxInt64] |
| `RangeHeader.Decimal` | request-handlers.go:115 | `%d` writes a non-empty string of digits |
| `RangeHeader.DecimalValue` | request-handlers.go:34-37 | parsing what `%d` writes gives back the number |
| `RangeHeader.ParseRangeHeader` | request-handlers.go:22-57 | empty header gives a disabled zero `Range` and no error; a format error happens exactly when a non-empty header does not match, and it returns the zero `Range`; success on a non-empty header gives an enabled range with 0 <= Start <= End < size; out-of-bounds happens exactly when an enabled bound is >= size; start-after-end happens exactly when both bounds are inside the object and Start > End |
| `RangeHeader.ParseNumerals` | request-handlers.go:27-56 | any header ending in `bytes=a-b` parses to the enabled range of the two numerals, whatever precedes it; out-of-bounds is decided before order |
| `RangeHeader.ParseCaptures` | request-handlers.go:31-46 | both captures are non-empty, so both bounds come from the header and the defaults of lines 40-46 are dead |
| `RangeHeader.ParseRoundTrip` | request-handlers.go:31-56 | for 0 <= s <= e < size <= MaxInt64, parsing `bytes=` + decimal(s) + `-` + decimal(e) returns {true, s, e} with no error, with or without leading text |
| `RangeHeader.ParseDecimal` | request-handlers.go:48-56 | for decimal bounds: out-of-bounds when either bound is >= size, even when s > e; start-after-end when both are inside and s > e; success otherwise |
| `RangeHeader.OverflowIsOutOfBounds` | request-handlers.go:34-50 | a bound too large for int64 makes the header out-of-bounds, as the unbounded value would |
| `RangeHeader.MultiRangeRejected` | request-handlers.go:19-29 | a multi-range header `bytes=a-b,c-d` is a format error |
| `RangeHeader.SuffixRangeRejected` | request-handlers.go:19-29 | a suffix range `bytes=-n` is a format error |
| `RangeHeader.OpenEndedRejected` | request-handlers.go:19-29 | an open-ended range `bytes=n-` is a format error |
| `RangeHeader.ExampleOutOfBounds` | request-handlers.go:48-50 | `bytes=0-999` against 100 bytes is out-of-bounds |
| `RangeHeader.ExampleStartAfterEnd` | request-handlers.go:52-54 | `bytes=5-2` against 6 bytes or more is start-after-end |
| `Handlers.SplitSlash` | request-handlers.go:103 | `strings.Split(path, "/")` has at least one piece, and exactly one when the path has no `/` |
| `Handlers.SegmentStart` | request-handlers.go:103-104 | the file name starts just after the last `/`, or at 0 |
| `Handlers.LastSegment` | request-handlers.go:103-104 | the file name is a suffix of the path with no `/`; it is the whole path when the path has no `/`, and empty when the path ends in `/` |
| `Handlers.LastSegmentAfterSlash` | request-handlers.go:103-104 | a file name shorter than the path starts right after a `/` |
| `Handlers.SplitLast` | request-handlers.go:103-104 | the last piece of `strings.Split` is that file name |
| `Handlers.ErrorResponse` | request-handlers.go:71-75 | `c.Data` with the error content type: the given status and cause, and none of the range headers |
| `Handlers.RangedResponse` | request-handlers.go:91-127 | after a successful stat: 200 or 206 exactly when the range header is accepted, and otherwise a 400 error reply carrying the parser's error; every success sets `Accept-Ranges: bytes` and the file name; an empty header gives 200 with Content-Length = size, and 200 happens only then; 206 comes with the accepted range inside the object and 1 <= Content-Length = End-Start+1 <= size, and the range as body when a body is sent; without a body no object bytes are sent |
| `Handlers.FileResponse` | request-handlers.go:66-129 | a stat or open failure gives 500 (and only those do); 400 happens exactly when the range is rejected, as an error reply carrying the parser's error; every success and nothing else sets `Accept-Ranges: bytes` and the file name; an empty header gives 200 with Content-Length = size and the whole object; 206 only for a parsed enabled range, with a body of that range and 1 <= Content-Length = End-Start+1 <= size |
| `Handlers.InfoResponse` | request-handlers.go:131-166 | no object bytes are ever sent; 500 happens exactly on a stat failure |
| `Handlers.InfoMatchesFile` | request-handlers.go:131-166 | the info handler gives the same status, headers and error bodies as the download handler would when the object opens, without the object |
| `Handlers.ObjectStore.GetObject` | request-handlers.go:79 | returns the backend's answer and counts the call |
| `Handlers.GetS3File` | request-handlers.go:66-129 | computes `FileResponse`; GetObject is called once after a successful stat and never after a stat failure; a handle it returns is closed on every path (the deferred Close); after a stat failure the handle is not touched |
| `Handlers.GetS3FileInfo` | request-handlers.go:131-166 | computes `InfoResponse` without opening the object |

## Findings

| source | as written | input that shows it | evidently intended | confidence | as-written member | corrected member |
|---|---|---|---|---|---|---|
| ranger-reader.go:43-46 | when the buffer is longer than the rest of the range, any error from `ReadAt` makes `Read` return (0, err). That includes `io.EOF` arriving with a full read, which `io.ReaderAt` allows when the read ends exactly at the object's end. The last chunk of a range that reaches the end of the object is then dropped, and `io.Copy` stops short of the Content-Length already sent | 3-byte object, range `bytes=1-2`, 8-byte buffer, a handle that returns (2, EOF) | deliver the fetched bytes: treat EOF with a full read as success | medium, not executed; it depends on whether the storage client reports EOF on a read that ends exactly at the object's end | `RangeReading.LostFinalChunk` | `RangeReading.ReadAll` |

## Left out

- main.go is not part of this model. Server start-up, signal handling, the 10-second shutdown drain and the exit code are concurrency and process coordination with no sequential contract.
- config.go is not part of this model. It covers the configuration file, the accounts file, environment variables and YAML decoding, all of which are I/O and library calls.
- Routing, Basic authentication, building the storage client, and the internals of `StatObject`, `GetObject` and the handle are also out. Their results are inputs: `StatOutcome`, `OpenOutcome`, and `ObjectHandle` with its content, EOF behaviour and failure flag.
- Handlers.GetS3File: the body is described (`WholeObject`, `RangeOf(start, end)`), not streamed. Copying to the response writer, the log line on a copy error, and streaming the whole object through the handle's sequential `Read` are not modelled. The ranged body's bytes are what `ReadAll` proves about the reader: exactly the range when the handle does not report EOF together with the object's last bytes, and possibly fewer bytes than Content-Length when it does.
- Error and log messages (the formatted strings, the path and bucket in them) are enumerated kinds (`RangeError`, `Failure`), not text.
- Storage.ObjectHandle.ReadAt: a failing backend is modelled as delivering nothing. `io.ReaderAt` would also allow partial data with an error. Reads after `Close` are not modelled.
- Storage.ObjectHandle.Close: the answer is a fixed property of the handle (`closeError`). What the real client does on a second close is not modelled.
- RangeReading.ReadAll: it models `io.Copy` as a plain loop over `Read`. The `WriterTo`/`ReaderFrom` fast paths and writer errors are not modelled.
- `Range`, the cursor and sizes are unbounded integers. No int64 overflow is possible on these paths: bounds are below a size that fits in int64, and `ParseInt`'s overflow is modelled explicitly.
- `ContentSize` of the reader is stored but unused, as in the source.
