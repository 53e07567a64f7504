/** Reads: the routing decision of Get and the signed download that serves
    keys starting with '/', which the S3-compatible API cannot address. */
module SignedDownload {
  import opened GoInt
  import opened Wrappers
  import opened Text
  import opened Storage

  type Body = seq<bv8>

  /** What the HTTP client answers: a status and a body, or a transport error. */
  datatype HttpResponse = Response(status: int, body: Body) | Failed(reason: string)

  const MissingDomainMessage: string :=
    "Please export QINIU_DOMAIN to download keys with prefix '/'"

  /** The text of the error for an unexpected status. */
  function StatusMessage(code: int): string {
    "Status code: " + IntToString(code)
  }

  /** The texts of the errors a download produces itself. */
  function ErrorText(e: Error): string
    requires e.MissingDomain? || e.BadStatus?
  {
    if e.MissingDomain? then MissingDomainMessage else StatusMessage(e.code)
  }

  /** The status code can be read back from the error text. */
  lemma StatusMessageCarriesCode(code: int)
    ensures HasPrefix(StatusMessage(code), "Status code: ")
    ensures ParseInt(StatusMessage(code)[|"Status code: "|..]) == Some(code)
  {
    assert StatusMessage(code)[|"Status code: "|..] == IntToString(code);
    ParseIntToString(code);
  }

  /** The Range header of a download, if any: `bytes=first-last` when a
      positive limit is given, `bytes=first-` when only an offset is. The last
      position is computed in int64 and wraps around like Go's. */
  function RangeHeader(off: Int64, limit: Int64): (h: Option<string>)
    ensures h.None? <==> off <= 0 && limit <= 0
    ensures h.Some? ==> HasPrefix(h.value, "bytes=" + IntToString(off) + "-")
  {
    if off > 0 || limit > 0 then
      if limit > 0 then
        Some("bytes=" + IntToString(off) + "-" + IntToString(Wrap64(off + limit - 1)))
      else
        Some("bytes=" + IntToString(off) + "-")
    else
      None
  }

  /** A byte range in the int-range form of section 14.1.2 of RFC 9110:
      first and last positions, both inclusive; no last means to the end. */
  datatype ByteRange = ByteRange(first: nat, last: Option<nat>)

  /** Reads a `bytes=` Range header of the int-range form. A last position
      below the first makes the range invalid. The suffix form `bytes=-n`
      is not recognised, since the adapter never sends it. */
  function ParseRange(h: string): Option<ByteRange> {
    if !HasPrefix(h, "bytes=") then None
    else
      var spec := h[6..];
      var dash := Find(spec, '-');
      if dash <= 0 || !AllDigits(spec[..dash]) then None
      else
        var first := ParseDigits(spec[..dash]);
        var rest := spec[dash + 1..];
        if rest == [] then Some(ByteRange(first, None))
        else if !AllDigits(rest) then None
        else if ParseDigits(rest) < first then None
        else Some(ByteRange(first, Some(ParseDigits(rest))))
  }

  /** How ParseRange reads a header built from two rendered numbers. */
  lemma ParseRendered(first: int, tail: string)
    ensures first >= 0 ==>
      ParseRange("bytes=" + IntToString(first) + "-" + tail)
      == (if tail == [] then Some(ByteRange(first, None))
          else if !AllDigits(tail) || ParseDigits(tail) < first then None
          else Some(ByteRange(first, Some(ParseDigits(tail)))))
    ensures first < 0 ==> ParseRange("bytes=" + IntToString(first) + "-" + tail) == None
  {
    var h := "bytes=" + IntToString(first) + "-" + tail;
    var spec := IntToString(first) + "-" + tail;
    assert h[..6] == "bytes=" && h[6..] == spec;
    if first >= 0 {
      DigitsHaveNo(IntToString(first), '-');
      FindAfter(IntToString(first), '-', tail);
      assert spec[..|IntToString(first)|] == IntToString(first);
      assert spec[|IntToString(first)| + 1..] == tail;
      ParseNatToString(first);
    } else {
      assert spec[0] == '-';
      assert Find(spec, '-') == 0;
    }
  }

  /** With a positive limit the header asks for exactly the bytes
      off .. off+limit-1, as long as that last position fits in an int64. */
  lemma {:induction false} RangeHeaderSelects(off: Int64, limit: Int64)
    requires 0 <= off && 0 < limit && off + limit - 1 <= Int64Max
    ensures RangeHeader(off, limit) == Some("bytes=" + IntToString(off) + "-" + IntToString(off + limit - 1))
    ensures ParseRange(RangeHeader(off, limit).value) == Some(ByteRange(off, Some(off + limit - 1)))
  {
    var last := off + limit - 1;
    assert Wrap64(off + limit - 1) == last;
    ParseRendered(off, IntToString(last));
    ParseNatToString(last);
  }

  /** With only a positive offset the header asks for everything from off on. */
  lemma {:induction false} RangeHeaderOpenEnded(off: Int64, limit: Int64)
    requires 0 < off && limit <= 0
    ensures ParseRange(RangeHeader(off, limit).value) == Some(ByteRange(off, None))
  {
    assert RangeHeader(off, limit).value == "bytes=" + IntToString(off) + "-" + "";
    ParseRendered(off, "");
  }

  /** A negative offset with a positive limit, or a last position that
      overflows int64, yields a header that is not a valid byte range. */
  lemma {:induction false} RangeHeaderMalformed(off: Int64, limit: Int64)
    ensures off < 0 && 0 < limit ==> ParseRange(RangeHeader(off, limit).value) == None
    ensures 0 <= off && 0 < limit && off + limit - 1 > Int64Max ==>
      ParseRange(RangeHeader(off, limit).value) == None
  {
    if 0 < limit {
      var tail := IntToString(Wrap64(off + limit - 1));
      ParseRendered(off, tail);
      if 0 <= off && off + limit - 1 > Int64Max {
        assert Wrap64(off + limit - 1) < 0;
        assert tail[0] == '-' && !IsDigit(tail[0]);
      }
    }
  }

  /** Statuses the download accepts: 200 OK and 206 Partial Content. */
  predicate Accepted(status: int) {
    status == 200 || status == 206
  }

  /** The signed-download request for a key: the private URL and the Range header. */
  function SignedRequest(domain: string, key: string, off: Int64, limit: Int64): Request {
    Request(PrivateUrl(domain, key), RangeHeader(off, limit))
  }

  /** A signed download: refuses before any request when the domain is empty,
      sends one GET otherwise, and accepts only 200 and 206. */
  function Download(domain: string, key: string, off: Int64, limit: Int64,
                    send: Request -> HttpResponse): (r: Traced<Result<Body, Error>>)
    ensures domain == "" <==> r.calls == []
    ensures domain == "" ==> r.value == Failure(MissingDomain)
    ensures domain != "" ==> r.calls == [HttpGet(SignedRequest(domain, key, off, limit))]
    ensures domain != "" ==>
      var resp := send(SignedRequest(domain, key, off, limit));
      && (r.value.Success? <==> resp.Response? && Accepted(resp.status))
      && (r.value.Success? ==> r.value.value == resp.body)
      && (resp.Response? && !Accepted(resp.status) ==> r.value == Failure(BadStatus(resp.status)))
      && (resp.Failed? ==> r.value == Failure(Transport(resp.reason)))
  {
    if domain == "" then Traced(Failure(MissingDomain), [])
    else
      var req := SignedRequest(domain, key, off, limit);
      var value := match send(req)
        case Failed(reason) => Failure(Transport(reason))
        case Response(status, body) =>
          if status != 200 && status != 206 then Failure(BadStatus(status)) else Success(body);
      Traced(value, [HttpGet(req)])
  }

  /** The errors of a download carry the texts the adapter reports: the
      missing-domain message, or the rejected status code. */
  lemma DownloadErrorText(domain: string, key: string, off: Int64, limit: Int64,
                          send: Request -> HttpResponse)
    ensures domain == "" ==>
      ErrorText(Download(domain, key, off, limit, send).value.error) == MissingDomainMessage
    ensures domain != "" ==>
      var resp := send(SignedRequest(domain, key, off, limit));
      resp.Response? && !Accepted(resp.status) ==>
        var text := ErrorText(Download(domain, key, off, limit, send).value.error);
        HasPrefix(text, "Status code: ") && ParseInt(text[|"Status code: "|..]) == Some(resp.status)
  {
    var resp := send(SignedRequest(domain, key, off, limit));
    if domain != "" && resp.Response? && !Accepted(resp.status) {
      StatusMessageCarriesCode(resp.status);
    }
  }

  /** Get routes keys starting with '/' to the signed download and every other
      key, unchanged, to the S3 client; neither path falls back to the other. */
  function Get(key: string, off: Int64, limit: Int64, domain: string,
               send: Request -> HttpResponse,
               s3Get: (string, Int64, Int64) -> Result<Body, Error>): (r: Traced<Result<Body, Error>>)
    ensures HasPrefix(key, "/") <==> S3Get(key, off, limit) !in r.calls
    ensures !HasPrefix(key, "/") ==> r == Traced(s3Get(key, off, limit), [S3Get(key, off, limit)])
    ensures HasPrefix(key, "/") ==> r == Download(domain, key, off, limit, send)
    ensures HasPrefix(key, "/") ==> forall c :: c in r.calls ==> c.HttpGet?
  {
    if HasPrefix(key, "/") then Download(domain, key, off, limit, send)
    else Traced(s3Get(key, off, limit), [S3Get(key, off, limit)])
  }
}
