/** The Qiniu adapter: its construction, its identifier, the List method
    that keeps the pagination cursor, and the Kodo-backed write operations. */
module Qiniu {
  import opened GoInt
  import opened Wrappers
  import opened Text
  import opened Storage
  import opened Kodo
  import opened Endpoint
  import opened Listing

  /** The multipart upload handle; its definition is not part of this model. */
  datatype MultipartUpload = MultipartUpload(uploadId: string)

  class Qiniu {
    const endpoint: Endpoint
    const bucket: string
    /** The Kodo bucket handle, fixed at construction. */
    const kodo: Bucket
    /** The listing cursor, shared by every List call on this adapter. */
    var marker: string
    /** The Kodo list calls issued so far, in order. */
    ghost var issued: seq<Call>

    /** Construction from the host of the endpoint URL and the Kodo bucket handle. */
    constructor (host: string, b: Bucket)
      requires WellFormedHost(host)
      ensures endpoint == Resolve(host) && bucket == endpoint.bucket && kodo == b
      ensures marker == "" && issued == []
    {
      endpoint := Resolve(host);
      bucket := Resolve(host).bucket;
      kodo := b;
      marker := "";
      issued := [];
    }

    /** The identifier `qiniu://<bucket>`, from which the bucket can be read back. */
    function String(): (s: string)
      ensures HasPrefix(s, "qiniu://") && s[|"qiniu://"|..] == bucket
    {
      "qiniu://" + bucket
    }

    /** List one page under prefix through the adapter's bucket handle. */
    method List(prefix: string, marker: string, limit: Int64)
      returns (objs: seq<Object>, err: Option<Error>)
      modifies this
      ensures var r := ListSpec(old(this.marker), prefix, marker, limit, kodo.list);
        && objs == r.objects && err == r.err
        && this.marker == r.cursor && issued == old(issued) + r.calls
    {
      if marker == "" {
        this.marker := "";
      } else if this.marker == "" {
        // the previous page was the last one
        return [], None;
      }
      var reply := kodo.list(prefix, this.marker, limit);
      issued := issued + [ListPage(prefix, this.marker, limit)];
      this.marker := reply.markerOut;
      var e := reply.err;
      if |reply.entries| > 0 || e.EOF? {
        // an error that comes with entries is ignored
        e := Nil;
      }
      if e.Err? {
        return [], Some(e.error);
      }
      ghost var issuedAfter := issued;
      var n := |reply.entries|;
      var out := new Object[n];
      for i := 0 to n
        invariant forall j :: 0 <= j < i ==> out[j] == ToObject(reply.entries[j])
        invariant this.marker == reply.markerOut && issued == issuedAfter
      {
        out[i] := ToObject(reply.entries[i]);
      }
      objs, err := out[..], None;
      assert objs == ListSpec(old(this.marker), prefix, marker, limit, kodo.list).objects;
    }
  }

  /** Exists probes the key with Stat and returns its error unchanged. */
  function Exists(b: Bucket, key: string): (r: Traced<Option<Error>>)
    ensures r.calls == [Stat(key)] && r.value == b.stat(key)
  {
    Traced(b.stat(key), [Stat(key)])
  }

  /** Delete probes first and deletes only when the probe succeeded. */
  function Delete(b: Bucket, key: string): (r: Traced<Option<Error>>)
    ensures |r.calls| > 0 && r.calls[0] == Stat(key)
    ensures Remove(key) in r.calls <==> b.stat(key).None?
    ensures b.stat(key).Some? ==> r.value == b.stat(key) && r.calls == [Stat(key)]
    ensures b.stat(key).None? ==> r.value == b.remove(key) && r.calls == [Stat(key), Remove(key)]
  {
    var probe := Exists(b, key);
    if probe.value.Some? then probe
    else Traced(b.remove(key), probe.calls + [Remove(key)])
  }

  /** Copy is a server-side copy; Kodo takes the source first. */
  function Copy(b: Bucket, dst: string, src: string): (r: Traced<Option<Error>>)
    ensures r.calls == [KodoCopy(src, dst)] && r.value == b.copy(src, dst)
  {
    Traced(b.copy(src, dst), [KodoCopy(src, dst)])
  }

  /** Multipart uploads are not supported by this adapter. */
  function CreateMultipartUpload(key: string): (r: Result<MultipartUpload, Error>)
    ensures r == Failure(NotSupported)
  {
    Failure(NotSupported)
  }
}
