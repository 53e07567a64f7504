# Qiniu object-storage adapter, modelled in Dafny

This project models the Qiniu backend of juicesync's object-storage layer
(`object/qiniu.go`). The adapter sends listing, writes, copy, delete and stat
through the Qiniu Kodo SDK. It reads keys that start with `/` through a
signed HTTP download of its own, and other keys through an S3-compatible
client, as it does every operation this file does not override. Three
pieces of its logic are modelled and proved:

- **Read routing and the signed download** (`SignedDownload`). `Get` sends
  keys that start with `/` to a signed-URL download and all other keys,
  unchanged, to the S3 client. The download refuses to build a request when
  the domain is empty. It chooses the `Range` header from the offset and the
  limit. It accepts only status 200 and 206. The header is checked against an
  independent parser of the int-range form of section 14.1.2 of RFC 9110.
- **The listing cursor** (`Listing`, `Qiniu.Qiniu.List`). The adapter keeps a
  single `marker` field across List calls. `ListSpec` states one call as a
  function of the stored cursor and the caller's marker. The `List` method
  updates the field in place, fills an array of objects in a loop, and is
  proved equal to `ListSpec`.
- **Endpoint resolution** (`Endpoint`). The bucket, the region and the Kodo
  zone are derived from the endpoint host. `ResolveCompose` proves that this
  derivation inverts building a host from its parts.

`Delete` (probe with Stat, then delete), `Exists`, `Copy` and
`CreateMultipartUpload` sit in the `Qiniu` module beside the class.

The services behind the adapter are oracles. The Kodo bucket handle
(`Kodo.Bucket`) is a record of total functions for stat, delete, copy and
list. The adapter object holds it from construction on, as the source holds
`q.b`; the functions beside the class take it as a parameter. The HTTP
client and the S3 client's `Get` are function parameters. Every operation
that calls a service records those calls: `Get`, `Download`, `Exists`,
`Delete` and `Copy` return them (`Storage.Traced`), `ListSpec` returns them
in `ListOutcome.calls`, and the `List` method appends them to the ghost
field `issued`. So "no request is sent" and "no delete is issued" are
statements about results.
Go's `int64` is `GoInt.Int64`. The one sum that can overflow, `off+limit-1`,
wraps explicitly (`GoInt.Wrap64`). Go's truncating division is
`GoInt.TruncDiv`.

Conceptually a listing cursor has three states: fresh, active and
exhausted. The code stores fresh and exhausted as the same empty string. So
an adapter that has never listed answers a non-empty caller marker with an
empty page and makes no call: the constructor leaves the cursor empty, and
the first clause of `Listing.ListSpec` covers an empty stored cursor. The
same holds after a last page (`Listing.ListStopsAfterLastPage`). Because the
cursor takes `markerOut` even when the call failed, a failed page that
returns an empty marker also leaves the adapter looking finished: a retry
with a non-empty marker gets an empty page and no error
(`Listing.ListFailureLooksLikeEnd`).

## Model

| member | source | states |
|---|---|---|
| `GoInt.Wrap64` | object/qiniu.go:47 | int64 sums wrap modulo 2^64 and keep their value when they fit |
| `GoInt.TruncDiv` | object/qiniu.go:119 | Go division rounds toward zero: q*d <= a < q*d+d for a >= 0, and q*d-d < a <= q*d for a < 0 |
| `Text.Find` | object/qiniu.go:137-139 | strings.SplitN at the first '.': the position of the first occurrence, or -1 exactly when there is none |
| `Text.FindLast` | object/qiniu.go:140 | strings.LastIndex: the position of the last occurrence, or -1 exactly when there is none |
| `Text.IntToString` | object/qiniu.go:47-49 | %d renders a sign exactly for negative numbers, followed by digits without a leading zero |
| `Text.ParseIntToString` | object/qiniu.go:57 | the decimal rendering of any integer reads back as that integer |
| `Endpoint.ZoneOf` | object/qiniu.go:125-130 | the zone is the table's entry for the region, or 0 for a region not in the table |
| `Endpoint.ZoneTable` | object/qiniu.go:125-130 | cn-east-1, cn-north-1, cn-south-1 and us-west-1 map to 0, 1, 2, 3; only the last three give a non-zero zone |
| `Endpoint.Resolve` | object/qiniu.go:137-153 | the host is bucket "." endpoint with no '.' in the bucket; the region is the endpoint up to its last '-'; the zone is the region's zone |
| `Endpoint.ResolveCompose` | object/qiniu.go:137-140 | any host bucket "." region "-" suffix with no '.' in bucket and no '-' in suffix is accepted and resolves back to exactly those parts |
| `SignedDownload.StatusMessageCarriesCode` | object/qiniu.go:57 | the text "Status code: <code>" starts with "Status code: " and the numeric code reads back from it |
| `SignedDownload.DownloadErrorText` | object/qiniu.go:34-58 | an empty domain gives the error text of line 35; a rejected status gives an error whose text carries that status code |
| `SignedDownload.RangeHeader` | object/qiniu.go:45-51 | no Range header exactly when off <= 0 and limit <= 0; otherwise the header starts "bytes=<off>-" |
| `SignedDownload.RangeHeaderSelects` | object/qiniu.go:46-47 | with off >= 0, limit > 0 and no overflow, the header is the text "bytes=<off>-<off+limit-1>" and parses as the inclusive RFC 9110 range off .. off+limit-1, which is limit bytes long |
| `SignedDownload.RangeHeaderOpenEnded` | object/qiniu.go:48-49 | with off > 0 and limit <= 0, the header is the open RFC 9110 range from off to the end |
| `SignedDownload.RangeHeaderMalformed` | object/qiniu.go:45-47 | a negative off with a positive limit, or an off+limit-1 that overflows int64, gives a header that is not a valid byte range |
| `SignedDownload.Download` | object/qiniu.go:33-59 | an empty domain fails with the configuration error and issues no request; otherwise exactly one GET is issued, with the Range header, and the result succeeds exactly on 200 or 206, carries the status code on any other status, and passes transport errors through |
| `SignedDownload.Get` | object/qiniu.go:62-68 | the S3 client is called exactly when the key does not start with '/', with the caller's arguments and its answer returned unchanged; keys starting with '/' get the signed download's result and only HTTP calls |
| `Listing.ToObject` | object/qiniu.go:118-120 | key and size are copied; mtime equals ctime and is PutTime in whole seconds, truncated toward zero |
| `Listing.MapEntries` | object/qiniu.go:115-121 | the objects have the entries' length and order, each the conversion of its entry |
| `Listing.ListSpec` | object/qiniu.go:99-123 | a caller marker on an empty stored cursor gives an empty page, no call and an unchanged cursor; otherwise one page is fetched from "" (empty marker) or from the stored cursor, never from the caller's text; the cursor becomes markerOut even on error; an error is returned, with no objects, exactly when no entries came back and the error is not EOF; on success the objects are the converted entries in order |
| `Listing.ListRestartIgnoresCursor` | object/qiniu.go:100-101 | an empty marker gives the same outcome whatever the stored cursor, and fetches from the start |
| `Listing.ListIgnoresMarkerText` | object/qiniu.go:102-106 | any two non-empty caller markers give the same outcome |
| `Listing.ListFailureLooksLikeEnd` | object/qiniu.go:102-114 | a call whose page fails with no entries and an empty markerOut returns that error, and a following call with a non-empty marker returns an empty page, no error and no Kodo call |
| `Listing.ListStopsAfterLastPage` | object/qiniu.go:102-107 | after a call that leaves the cursor empty, a call with a non-empty marker returns an empty page without calling Kodo |
| `Qiniu.Qiniu.constructor` | object/qiniu.go:132-158 | the adapter gets the resolved endpoint and bucket, the given Kodo bucket handle and an empty cursor |
| `Qiniu.Qiniu.String` | object/qiniu.go:29-31 | the identifier is "qiniu://" followed by the bucket, which can be read back from it |
| `Qiniu.Qiniu.List` | object/qiniu.go:99-123 | through the adapter's own bucket handle, the returned objects and error, the new cursor field and the issued list calls are exactly those of ListSpec from the old cursor |
| `Qiniu.Exists` | object/qiniu.go:87-90 | one Stat call, whose error is returned unchanged |
| `Qiniu.Delete` | object/qiniu.go:92-97 | Stat is issued first; a delete is issued exactly when Stat succeeded; a Stat error is returned as is, otherwise the delete's result is |
| `Qiniu.Copy` | object/qiniu.go:83-85 | one Kodo copy call with source and destination swapped into Kodo's order, its error returned unchanged |
| `Qiniu.CreateMultipartUpload` | object/qiniu.go:79-81 | always fails with the not-supported error |

## Left out

- The `Date` header (object/qiniu.go:43-44): it depends on the wall clock.
- URL signing (`kodo.MakeBaseUrl`, `MakePrivateUrl`): a request's URL is the pair (domain, key), and the signature is not modelled.
- The error path of `http.NewRequest` (object/qiniu.go:39-42): the signed URL is assumed well formed, because the URL builder is not part of this model.
- `httpClient.Do` and the response stream: the HTTP client is a function from request to a status and a body (a byte sequence), or to a transport error. Closing the body is not modelled.
- `os.Getenv("QINIU_DOMAIN")`: the domain is a parameter of `Download` and `Get`.
- The S3 client's own `Get`: it is a function parameter whose answer `Get` returns unchanged. The S3 client type is not part of this model.
- `Put` and `findLen` (object/qiniu.go:70-77): length discovery lives in a helper that is not part of this model, and the upload is a single SDK call.
- `url.ParseRequestURI` and `logger.Fatalf` (object/qiniu.go:133-136): the model starts from the extracted host string.
- The AWS session, the S3 client and `kodo.SetMac`/`kodo.New`/`Bucket` (object/qiniu.go:141-156): SDK configuration without logic. The constructor takes the resulting Kodo bucket handle as a parameter instead of building it from the zone and the bucket name.
- The panics of the constructor on a host without '.' or without '-' after it: they are the precondition `Endpoint.WellFormedHost`.
- `init`/`register` (object/qiniu.go:160-162): global registration at load time.
- Concurrent List calls racing on the shared cursor: the model covers sequential calls only.
- `MultipartUpload`: its definition is not part of this model, so the handle is a placeholder that is never built.
- Listing.ListSpec: the page bound (at most `limit` entries) and key order are the provider's guarantees. The list oracle is unconstrained, so the model does not promise them.
- The suffix form of byte ranges: `SignedDownload.ParseRange` reads only the int-range form `bytes=first-[last]`, because the adapter never sends a suffix range.
- Go's nil slice versus an empty slice: both are the empty sequence.
