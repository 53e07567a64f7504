/** The values the adapter exchanges with its callers and with the services
    behind it. A network or SDK call is never executed; it is recorded as a
    `Call`, so that what an operation asked for is part of its result. */
module Storage {
  import opened GoInt
  import opened Wrappers

  /** One listed object: key, size in bytes, modify and create time in seconds. */
  datatype Object = Object(key: string, size: Int64, mtime: Int64, ctime: Int64)

  /** The errors an operation of the adapter can return. */
  datatype Error =
    | MissingDomain            // QINIU_DOMAIN is empty, so no download URL can be formed
    | BadStatus(code: int)     // the download answered with a status other than 200 or 206
    | Transport(reason: string) // the HTTP client failed to obtain a response
    | NotSupported             // the operation has no implementation for this provider
    | Provider(reason: string)  // an error reported by the S3 client or the Kodo SDK

  /** The signed download URL for a key under a domain; signing is not modelled. */
  datatype PrivateUrl = PrivateUrl(domain: string, key: string)

  /** A signed-download GET request: its URL and its optional Range header. */
  datatype Request = Request(url: PrivateUrl, range: Option<string>)

  /** The calls an operation issues to the services behind the adapter. */
  datatype Call =
    | S3Get(key: string, off: Int64, limit: Int64)
    | HttpGet(req: Request)
    | Stat(key: string)
    | Remove(key: string)
    | KodoCopy(src: string, dst: string)
    | ListPage(prefix: string, cursor: string, limit: Int64)

  /** A result together with the calls issued, in order, to produce it. */
  datatype Traced<T> = Traced(value: T, calls: seq<Call>)
}
