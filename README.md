# Upload progress counting (OkHttp recipes `BytesUpload` and `Upload2`)

This project models the upload-progress decorator from two OkHttp sample
recipes. `CountingRequestBody` wraps another `RequestBody`. It reports the
wrapped body's media type and length. When the HTTP client asks it to write
itself to a sink, it builds a fresh `CountingSink` around that sink. The
wrapped body then writes through a buffering layer into the counting sink,
and the buffer is flushed. `CountingSink` forwards each chunk to the real
sink. Only when that succeeds does it add the chunk's length to
`bytesWritten` and call the listener with
`(bytesWritten, contentLength(), bytesWritten == contentLength())`.

The two recipes hold the same pair of classes. `BytesUpload.java` only adds
console tracing. One model covers both, and the table below cites whichever
copy a property is read from.

Files:

- `io.dfy` (module `Io`): bytes, `IOException` as `Outcome`, the
  concatenation of chunks, and `Destination`, the sink the HTTP client hands
  to `writeTo`. Each write or flush of a `Destination` may fail at any call;
  the model leaves that choice open. A failing write may already have taken
  a prefix of its chunk. A ghost counter `refusals` records every failed
  call, so contracts can say that a failure came from the destination.
- `progress.dfy` (module `Progress`): the listener's view. `ProgressListener`
  records each `update` call. `Updates` specifies the updates that one
  write-out reports for a given chunking. The lemmas give its closed form and
  the rules for the `done` flag.
- `counting.dfy` (module `Counting`): the wrapped body as a value
  (`RequestBody`), and the classes `CountingRequestBody` and `CountingSink`
  with their fields `countingSink` and `bytesWritten`.

The buffering layer (`Okio.buffer`) is foreign code. `WriteTo` receives the
chunks it hands down to the counting sink as a parameter, `emitted`. The only
demand on it is that its bytes, in order, are the wrapped body's payload. The
loop in `WriteTo` stands for the buffer's successive calls into the sink.

Three behaviours of the code that the model keeps as they are:

- `done` is computed as `bytesWritten == contentLength()` even when the
  length is -1. `NeverDoneWhenLengthNegative` proves that it is then always
  false, for every negative length.
- The code never checks that the counter stays within a known length. The
  model reports whatever count the forwarded chunks give.
  `DoneExactlyAtEnd` covers a payload of exactly the declared length: the
  last update is then the only `done` one.
- An empty body of declared length 0 fires no update at all, so its listener
  never receives `done`. The buffered sink forwards nothing, and the
  counting sink's `write` is never called. This is why `DoneExactlyAtEnd`
  needs at least one chunk.

## Model

| member | source | states |
|---|---|---|
| Counting.CountingRequestBody.constructor | samples/guide/src/main/java/okhttp3/recipes/BytesUpload.java:107-110 | The body keeps the wrapped body and the listener, and has no counting sink yet. |
| Counting.CountingRequestBody.ContentType | samples/guide/src/main/java/okhttp3/recipes/BytesUpload.java:112-115 | The media type is the wrapped body's, unchanged (absent if it is absent). |
| Counting.CountingRequestBody.ContentLength | samples/guide/src/main/java/okhttp3/recipes/Upload2.java:111-119 | The length never fails: it is the wrapped body's length when that query returns, and -1 when it throws. |
| Counting.CountingRequestBody.WriteTo | samples/guide/src/main/java/okhttp3/recipes/BytesUpload.java:127-136 | Installs a fresh counting sink. The sink receives exactly the chunks that went through, in order, plus at most a prefix of a refused chunk. The counter equals the byte count of the chunks that went through, and the listener gets `Updates` of them counted from 0. The write-out fails exactly when the sink refuses one call. A refused write stops the write-out before the flush, and a failure leaves the flushed length unchanged. On success the sink holds exactly the wrapped payload, the counter equals the payload length, and everything is flushed. |
| Counting.CountingSink.constructor | samples/guide/src/main/java/okhttp3/recipes/Upload2.java:134-138 | A new counting sink wraps the given sink and starts with `bytesWritten == 0`. |
| Counting.CountingSink.Write | samples/guide/src/main/java/okhttp3/recipes/BytesUpload.java:146-153 | After a successful forward, the sink has the chunk appended, the counter grew by exactly the chunk length, and one update `(counter, contentLength(), counter == contentLength())` was reported. A refused forward (the destination's only way to fail) leaves the counter and the listener unchanged; the sink may have taken a prefix of the chunk. |
| Counting.CountingSink.Flush | samples/guide/src/main/java/okhttp3/recipes/Upload2.java:125-129 | Flushing passes through to the destination; on success all received bytes are flushed, and no bytes are added. |
| Counting.WriteOutTwice | samples/guide/src/main/java/okhttp3/recipes/Upload2.java:122-134 | Two write-outs of the same body each report updates counted from 0, so a retry restarts progress from zero. An attempt that succeeds reports one update per chunk. When the retry has a sink of its own, a successful retry leaves exactly the payload in that sink. |
| Counting.ThrowingLengthNeverDone | samples/guide/src/main/java/okhttp3/recipes/Upload2.java:111-145 | If the wrapped length query throws, every update reports length -1 and never `done`. |
| Progress.ProgressListener.Update | samples/guide/src/main/java/okhttp3/recipes/BytesUpload.java:97-99 | The listener receives one `(bytesRead, contentLength, done)` update per call, in order. |
| Progress.Updates | samples/guide/src/main/java/okhttp3/recipes/Upload2.java:140-146 | A write-out of n chunks reports exactly n updates. |
| Progress.UpdatesAt | samples/guide/src/main/java/okhttp3/recipes/Upload2.java:144-145 | The i-th update reports the start count plus all bytes of chunks 0..i, the unchanged length, and `done` exactly when these are equal. |
| Progress.UpdatesAppend | samples/guide/src/main/java/okhttp3/recipes/BytesUpload.java:151-152 | Forwarding a then b reports the updates of a, then those of b counted on from the bytes of a. |
| Progress.UpdatesSnoc | samples/guide/src/main/java/okhttp3/recipes/BytesUpload.java:149-152 | One more forwarded chunk adds exactly one update, carrying the counter grown by that chunk. |
| Progress.UpdatesIncreasing | samples/guide/src/main/java/okhttp3/recipes/BytesUpload.java:151 | With non-empty chunks, the reported count is above its start and strictly increases from update to update. |
| Progress.NeverDoneWhenLengthNegative | samples/guide/src/main/java/okhttp3/recipes/BytesUpload.java:152 | With a negative length (-1 is unknown) and a counter that starts non-negative, no update reports `done`. |
| Progress.DoneAtMostOnce | samples/guide/src/main/java/okhttp3/recipes/Upload2.java:144-145 | With non-empty chunks, at most one update reports `done`. |
| Progress.LastUpdateCountsAll | samples/guide/src/main/java/okhttp3/recipes/Upload2.java:144 | The last update reports every forwarded byte. |
| Progress.DoneExactlyAtEnd | samples/guide/src/main/java/okhttp3/recipes/BytesUpload.java:151-152 | When the forwarded bytes equal the declared length, the last update is `(L, L, true)` and no earlier update is `done`. |
| Progress.KnownLengthScenario | samples/guide/src/main/java/okhttp3/recipes/BytesUpload.java:152 | Length 4, chunks of 1, 1 and 2 bytes: updates `(1,4,false)`, `(2,4,false)`, `(4,4,true)`. |
| Progress.UnknownLengthScenario | samples/guide/src/main/java/okhttp3/recipes/Upload2.java:145 | Unknown length -1, one chunk of 10 bytes: the single update is `(10,-1,false)`. |
| Io.ConcatAppend | samples/guide/src/main/java/okhttp3/recipes/Upload2.java:142 | Bytes forwarded in two runs are the bytes of the first run followed by those of the second. |

## Left out

- `main` and `run` in both recipes: building the multipart body, the request and the client, and executing the call. This is HTTP glue over library code.
- The anonymous `ProgressListener` implementations, with their `firstUpdate` flag and percentages. They only print; the model's listener records its arguments instead.
- The Okio buffering layer (`Okio.buffer`, `Buffer`, `ForwardingSink`). It is foreign code; `WriteTo` takes the chunks it would hand down as a parameter.
- Multipart framing and `MediaType.parse`. A media type is an opaque value.
- The 4 MiB zero-filled array in `BytesUpload` and the `File` in `Upload2`. Both are demo data and file I/O.
- `printStackTrace` and the `println` tracing: logging only.
- Thread safety of the counter: the write path is single-threaded.
- Counting.CountingSink.Write: `bytesWritten` is an unbounded integer. Java's `long` would wrap only after 2^63 bytes, which no payload reaches.
- Counting.CountingSink.Write: takes the bytes of the chunk, not `(Buffer source, long byteCount)`. Okio's check that `byteCount` does not exceed the buffer's size is not modelled.
- Counting.CountingRequestBody.WriteTo: failures raised by the wrapped body itself, rather than by the sink it writes into, are not modelled. Neither are unchecked exceptions thrown by the listener.
- Counting.CountingRequestBody.ContentLength: the wrapped body's length query is modelled as giving the same answer on every call. The source queries it again, twice per update, and a body backed by a file could answer differently from one call to the next.
- Counting.CountingRequestBody.WriteTo: the error value is not tracked. The propagated failure is the one the destination returned. The contract says that the outcome is a failure exactly when the destination refused one call, but not which `IOError` value it carries.
