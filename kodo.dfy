/** The Kodo SDK bucket handle, as an oracle: each call's answer is a function
    of its arguments. */
module Kodo {
  import opened GoInt
  import opened Wrappers
  import opened Storage

  /** One item of a Kodo listing page. PutTime counts 100-nanosecond units. */
  datatype Entry = Entry(key: string, fsize: Int64, putTime: Int64)

  /** The error of a list call: nil, io.EOF, or any other error. */
  datatype ListErr = Nil | EOF | Err(error: Error)

  /** What Bucket.List answers: entries, the continuation marker and an error. */
  datatype ListReply = ListReply(entries: seq<Entry>, markerOut: string, err: ListErr)

  /** The operations of kodo.Bucket the adapter calls; None is a nil error. */
  datatype Bucket = Bucket(
    stat: string -> Option<Error>,
    remove: string -> Option<Error>,
    copy: (string, string) -> Option<Error>,
    list: (string, string, Int64) -> ListReply)
}
