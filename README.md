# Profiler capture pipeline, modelled in Dafny

The profiler is a reverse proxy that records a description of every request it
forwards: the HTTP method, the URL, the headers (each name's values folded into
one comma-separated string), the client address, a browser label guessed from
the User-Agent header, and a formatted arrival time. The program also starts a
background consumer that reads records from a channel, collects them in
batches of 100 and writes each full batch to the output file. Nothing in the
program sends on that channel (it is declared at `profiler.go:54` and only read
at `profiler.go:59`): the handler instead writes each record directly at
`profiler.go:143`, in a call that does not type-check. The model covers the
consumer's logic over whatever sequence of records a producer would deliver.

This project models the sequential logic of that pipeline, in `profiler.go`:

- `browser.dfy` (module `Browser`): the browser classifier `getBrowser`. It is a
  first-match substring search over the fixed, ordered list
  Chrome, Firefox, Safari, Opera, Edge, MSIE, Trident, with `"Unknown"` as the
  fallback. Go's `strings.Contains` is modelled as `Contains`, which is proved equal to
  "there is a position where the token occurs".
- `headers.dfy` (module `Headers`): the handler's header loop. It folds
  `map<string, seq<string>>` into `map<string, string>` with Go's
  `strings.Join(v, ",")`. `SplitOnComma` serves as the inverse of the join. It
  shows when the folding loses information and when it does not.
- `records.dfy` (module `Records`): the `RequestInfo` record and how the handler
  assembles it. `UserAgent` is `Header.Get("User-Agent")`: the first value, or
  `""`.
- `recorder.dfy` (module `Recorder`): the consumer `processBufferedRequests` and
  the writer `writeRequestInfoToFile`.
  - The channel is a sequence of delivered records, processed in order by a
    loop. In the program the channel is never closed, so the loop never ends;
    the model's loop stops after the delivered records and returns the batch
    still pending.
  - The file system is a class whose field maps file names to the records they
    hold.
  - A write either replaces the file's contents with exactly the batch, or fails
    and changes nothing. The oracle `diskAccepts(k)` gives the outcome of the
    k-th write.
  - `Batches`, `Pending` and `StoreAfter` are the specification functions the
    loop is proved against.
- `wrappers.dfy`: the `Option` datatype.

Behaviour as written. The consumer writes only when the batch reaches 100
records. No time-based flush exists, although the comment at
`profiler.go:62` mentions one. Each flush overwrites the file
(`os.WriteFile`); there is no append mode. So the file holds at most the last
successful batch. `OverwriteDiscardsHistory` proves that when every write
succeeds, after 200 or more records the file holds only 100 of them. The
handler's own write of a single record (`profiler.go:143-148`) would answer
with a 500 and skip forwarding when it fails, but it passes a pointer where a
slice is expected and so does not compile; it is not modelled.

## Model

| member | source | states |
|---|---|---|
| Browser.Contains | profiler.go:93 | substring test: true exactly when the token occurs at some position of the user agent (the empty token occurs everywhere) |
| Browser.FirstMatch | profiler.go:92-96 | the result is the index of a token that occurs, and no earlier token occurs; the result is None exactly when no token occurs |
| Browser.GetBrowser | profiler.go:89-99 | the label is one of the seven tokens or "Unknown"; a token label occurs in the user agent |
| Browser.GetBrowserIsFirstMatch | profiler.go:90-96 | the label is the k-th token if and only if that token occurs and none of the tokens before it does (first match in list order wins) |
| Browser.GetBrowserUnknown | profiler.go:92-98 | the label is "Unknown" if and only if none of the seven tokens occurs in the user agent |
| Browser.ChromeWins | profiler.go:90-95 | a user agent containing "Chrome" is labelled Chrome, whatever later tokens (Safari, Edge, Opera) it also holds |
| Browser.ClassifierExamples | profiler.go:89-99 | a Chrome user agent that also names Safari is labelled "Chrome"; "curl/7.0" is labelled "Unknown" |
| Headers.Join | profiler.go:127 | Go's strings.Join: the result begins with the first value, followed by the separator when more values follow |
| Headers.CollapseHeaders | profiler.go:125-128 | the folded map has exactly the request header's names, and each name maps to its values joined with "," |
| Headers.JoinLength | profiler.go:127 | joining n > 0 values adds exactly n - 1 separators to their total length |
| Headers.SplitJoin | profiler.go:127 | values without commas are recovered by splitting the joined string at commas |
| Headers.JoinIsLossy | profiler.go:127 | the folding is lossy: ["a,b"] and ["a","b"] fold to the same string, and so do [] and [""] |
| Records.UserAgent | profiler.go:131 | Header.Get: the first value stored under "User-Agent" when there is one, and "" when the name is absent or has no values |
| Records.BuildRequestInfo | profiler.go:125-141 | the record carries the request's method, URL, remote address and time unchanged, the folded headers with the same names, and the browser classified from the first User-Agent value |
| Records.RecordedUserAgentShowsBrowser | profiler.go:125-141 | a browser label other than "Unknown" occurs in the folded User-Agent header the record keeps |
| Recorder.WriteRequestInfoToFile | profiler.go:75-87 | a successful write replaces the file's records with exactly the batch, creating the file if needed; a failed write changes no file; the result reports the outcome |
| Recorder.ProcessBufferedRequests | profiler.go:56-73 | after every iteration the batch stays below 100 records, the batches written so far are Batches of the records received so far and the batch is their Pending rest; so the writer receives exactly Batches(channel) in order; the unwritten rest is Pending(channel) whatever the write outcomes; the files end as StoreAfter says |
| Recorder.BatchesPartition | profiler.go:59-71 | every written batch holds 100 records, the pending rest fewer, and the batches followed by the rest are the received records in arrival order |
| Recorder.BatchesOfFlatten | profiler.go:59-71 | full batches followed by a short rest are cut back into exactly those batches, leaving exactly that rest pending |
| Recorder.BatchesCount | profiler.go:59-71 | n received records cause n / 100 writes and leave n % 100 records pending |
| Recorder.BatchAt | profiler.go:60-64 | the k-th write receives records k*100 up to (k+1)*100: the 100 most recent records, in arrival order |
| Recorder.FlushAfterRecord | profiler.go:63 | a write follows the i-th received record if and only if that record brings the batch to 100 |
| Recorder.StoreHoldsLastAcceptedBatch | profiler.go:64-70 | after a series of writes the file holds exactly the batch of the last successful write; earlier batches are discarded; with no successful write, and for every other file, nothing changes |
| Recorder.OverwriteDiscardsHistory | profiler.go:81 | with at least 200 records and every write succeeding, the file holds only the last full batch of 100 records, fewer than were received |

## Left out

- Configuration loading, the command line and `main` (profiler.go:34-50, 101-115): these are environment and file input, not capture logic.
- The HTTP listener and the forwarding through `httputil.NewSingleHostReverseProxy` (profiler.go:116-157). The forwarding is an opaque library call.
- The handler's inline write at profiler.go:143 passes a pointer to one record where a slice is expected. It does not compile, so it has no behaviour to model. Its error path (a 500 response, no forwarding) is left out with it.
- A read-append-write mode, a `BufferedWrite` switch and an idle-time flush do not exist in the code, so they are not modelled. The handler's single-record write (profiler.go:143) would overwrite the file too, and is left out as said above.
- The JSON encoding by `json.MarshalIndent` and the bytes `os.WriteFile` puts on disk. A file holds the records themselves. The marshalling error branch (profiler.go:77-79) is not modelled: records hold only strings and string maps, so encoding them cannot fail.
- Recorder.WriteRequestInfoToFile: a failed write leaves the file unchanged. A real `os.WriteFile` may have truncated or partly written the file before it fails. The outcome comes from an oracle parameter.
- The log messages after each write (profiler.go:66-68): they are output only.
- The time stamp `time.Now().Format("01-02-06 - 15:04")` (profiler.go:132). It is a parameter of `BuildRequestInfo`, treated as an opaque string.
- The goroutine and the channel (profiler.go:54, 112). No code sends on the channel and none closes it. The consumer runs sequentially over a given sequence of delivered records, in order.
- The canonicalisation of header names that Go's `Header.Get` performs. The model assumes the request's header names are already canonical, as net/http delivers them.
- Strings are modelled as sequences of characters rather than UTF-8 bytes. The tokens are ASCII, so the substring test agrees on valid UTF-8.
- profiler_test.go holds integration tests that set a `BufferedWrite` field `Config` does not have. They contain no logic to model.
