/** The listing state machine: how the caller's marker and the adapter's
    stored cursor decide whether, and from where, a page is fetched, and how
    a Kodo page becomes a list of objects. */
module Listing {
  import opened GoInt
  import opened Wrappers
  import opened Storage
  import opened Kodo

  /** Kodo's PutTime counts 100-nanosecond units. */
  const PutTimeUnitsPerSecond: int := 10000000

  /** One listed object: key and size copied, both times set to the PutTime
      in whole seconds, truncated toward zero as Go's division does. */
  function ToObject(e: Entry): (o: Object)
    ensures o.key == e.key && o.size == e.fsize && o.mtime == o.ctime
    ensures 0 <= e.putTime ==>
      0 <= o.mtime && o.mtime * PutTimeUnitsPerSecond <= e.putTime < (o.mtime + 1) * PutTimeUnitsPerSecond
    ensures e.putTime < 0 ==>
      o.mtime <= 0 && (o.mtime - 1) * PutTimeUnitsPerSecond < e.putTime <= o.mtime * PutTimeUnitsPerSecond
  {
    var t := TruncDiv(e.putTime, PutTimeUnitsPerSecond);
    Object(e.key, e.fsize, t, t)
  }

  /** A page of entries as objects: same length, same order. */
  function MapEntries(es: seq<Entry>): (os: seq<Object>)
    ensures |os| == |es|
    ensures forall i :: 0 <= i < |es| ==> os[i] == ToObject(es[i])
  {
    if es == [] then [] else MapEntries(es[..|es| - 1]) + [ToObject(es[|es| - 1])]
  }

  /** What one List call returns, the cursor it leaves behind and the calls it issued. */
  datatype ListOutcome = ListOutcome(objects: seq<Object>, err: Option<Error>, cursor: string, calls: seq<Call>)

  /** One List call, from the stored cursor `stored` and the caller's `marker`. */
  function ListSpec(stored: string, prefix: string, marker: string, limit: Int64,
                    list: (string, string, Int64) -> ListReply): (r: ListOutcome)
    // a caller marker on an empty stored cursor: an empty page, no call, cursor kept
    ensures marker != "" && stored == "" ==> r == ListOutcome([], None, stored, [])
    // otherwise one page, fetched from the start if the marker is empty and
    // from the stored cursor if not; the cursor becomes the returned marker
    ensures marker == "" || stored != "" ==>
      var cursor := if marker == "" then "" else stored;
      var reply := list(prefix, cursor, limit);
      && r.calls == [ListPage(prefix, cursor, limit)]
      && r.cursor == reply.markerOut
      && (r.err.Some? <==> reply.entries == [] && reply.err.Err?)
      && (r.err.Some? ==> r.err.value == reply.err.error && r.objects == [])
      && (r.err.None? ==>
            |r.objects| == |reply.entries|
            && forall i :: 0 <= i < |reply.entries| ==> r.objects[i] == ToObject(reply.entries[i]))
  {
    if marker != "" && stored == "" then ListOutcome([], None, stored, [])
    else
      var cursor := if marker == "" then "" else stored;
      var reply := list(prefix, cursor, limit);
      var err := if |reply.entries| > 0 || reply.err.EOF? then Nil else reply.err;
      var calls := [ListPage(prefix, cursor, limit)];
      if err.Err? then ListOutcome([], Some(err.error), reply.markerOut, calls)
      else ListOutcome(MapEntries(reply.entries), None, reply.markerOut, calls)
  }

  /** An empty marker restarts the listing whatever the stored cursor was. */
  lemma ListRestartIgnoresCursor(stored1: string, stored2: string, prefix: string, limit: Int64,
                                 list: (string, string, Int64) -> ListReply)
    ensures ListSpec(stored1, prefix, "", limit, list) == ListSpec(stored2, prefix, "", limit, list)
    ensures ListSpec(stored1, prefix, "", limit, list).calls == [ListPage(prefix, "", limit)]
  {
  }

  /** The text of a non-empty caller marker is never used: only the stored cursor is. */
  lemma ListIgnoresMarkerText(stored: string, prefix: string, marker1: string, marker2: string,
                              limit: Int64, list: (string, string, Int64) -> ListReply)
    requires marker1 != "" && marker2 != ""
    ensures ListSpec(stored, prefix, marker1, limit, list) == ListSpec(stored, prefix, marker2, limit, list)
  {
  }

  /** Once a page comes back with an empty marker, continuing with a non-empty
      marker yields an empty page without another call. An adapter that has
      never listed has the same empty cursor, so it answers the same way. */
  lemma ListStopsAfterLastPage(stored: string, prefix: string, marker: string, next: string,
                               limit: Int64, list: (string, string, Int64) -> ListReply)
    requires next != ""
    requires ListSpec(stored, prefix, marker, limit, list).cursor == ""
    ensures ListSpec(ListSpec(stored, prefix, marker, limit, list).cursor, prefix, next, limit, list)
         == ListOutcome([], None, "", [])
  {
  }

  /** The cursor takes markerOut even when the page failed. A failed page with
      no entries and an empty marker is reported once; a retry with a
      non-empty marker then gets an empty page and no error, as if the
      listing had ended. */
  lemma ListFailureLooksLikeEnd(stored: string, prefix: string, marker: string, retry: string,
                                limit: Int64, list: (string, string, Int64) -> ListReply)
    requires marker == "" || stored != ""
    requires retry != ""
    requires var reply := list(prefix, if marker == "" then "" else stored, limit);
      reply.entries == [] && reply.err.Err? && reply.markerOut == ""
    ensures var first := ListSpec(stored, prefix, marker, limit, list);
      && first.err.Some? && first.cursor == ""
      && ListSpec(first.cursor, prefix, retry, limit, list) == ListOutcome([], None, "", [])
  {
  }
}
