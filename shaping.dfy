/**
 * How the Beeper node turns one response into output records: the list
 * operations of chats and messages emit the elements of the response's
 * `items` array, cut to the item's `limit` option; everything else is emitted
 * as one record. Every record is paired with the input item it came from.
 */
module Shaping {
  import opened Wrappers
  import opened Values
  import opened Dispatch

  /** An output record: its JSON and the index of the input item it is paired with. */
  datatype Record = Record(json: Json, pairedItem: nat)

  /** The record a failed item contributes when the node continues on failure: {error: message}. */
  function ErrorRecord(message: string, i: nat): Record {
    Record(JObject(map["error" := JString(message)]), i)
  }

  /** The operations whose `items` array is unwrapped: list on chats and on messages. */
  predicate IsListCall(resource: Resource, operation: Operation) {
    (resource == Chat || resource == Message) && operation == List
  }

  /** The `items` array of a response, when the response is an object that has one. */
  function ListItems(response: Json): Option<seq<Json>> {
    if response.JObject? && "items" in response.fields && response.fields["items"].JArray? then
      Some(response.fields["items"].elems)
    else
      None
  }

  /** Reading `items` of a null response throws this TypeError. */
  const NullItemsMessage: string := "Cannot read properties of null (reading 'items')"

  function Min(a: int, b: int): int { if a <= b then a else b }
  function Max(a: int, b: int): int { if a <= b then b else a }

  /** The end index Array.prototype.slice(0, end) uses on an array of length len: a negative end counts from the back. */
  function SliceEnd(len: nat, end: int): (r: nat)
    ensures r <= len
  {
    if end < 0 then Max(len + end, 0) else Min(end, len)
  }

  /**
   * The list cut: `if (limit && items.length > limit) items = items.slice(0, limit)`.
   * A missing or zero limit keeps every element; a positive one keeps the
   * first `limit`; a negative one, which the form does not offer, drops that
   * many from the end.
   */
  function Truncate(xs: seq<Json>, limit: Option<int>): (r: seq<Json>)
    ensures |r| <= |xs| && r == xs[..|r|]
    ensures limit.None? || limit == Some(0) ==> r == xs
    ensures limit.Some? && limit.value > 0 ==> |r| == Min(limit.value, |xs|)
    ensures limit.Some? && limit.value < 0 ==> |r| == Max(|xs| + limit.value, 0)
  {
    match limit
    case None => xs
    case Some(l) => if l != 0 && |xs| > l then xs[..SliceEnd(|xs|, l)] else xs
  }

  /** returnJsonArray followed by constructExecutionMetaData: one record per value, all paired with item i. */
  function Wrap(xs: seq<Json>, i: nat): (r: seq<Record>)
    ensures |r| == |xs|
    ensures forall k :: 0 <= k < |r| ==> r[k].json == xs[k] && r[k].pairedItem == i
  {
    seq(|xs|, k requires 0 <= k < |xs| => Record(xs[k], i))
  }

  /**
   * The records one successful response yields for item i, or the error
   * thrown while shaping it.
   */
  function Shape(resource: Resource, operation: Operation, limit: Option<int>, response: Json, i: nat): (r: Result<seq<Record>>)
    ensures r.Err? <==> IsListCall(resource, operation) && response.JNull?
    ensures r.Ok? ==> forall k :: 0 <= k < |r.value| ==> r.value[k].pairedItem == i
    ensures r.Ok? && !(IsListCall(resource, operation) && ListItems(response).Some?) ==> r.value == [Record(response, i)]
    ensures IsListCall(resource, operation) && ListItems(response).Some? ==>
              var xs := ListItems(response).value;
              && r.Ok?
              && |r.value| <= |xs|
              && (forall k :: 0 <= k < |r.value| ==> r.value[k].json == xs[k])
              && (limit.None? || limit == Some(0) ==> |r.value| == |xs|)
              && (limit.Some? && limit.value > 0 ==> |r.value| == Min(limit.value, |xs|))
              && (limit.Some? && limit.value < 0 ==> |r.value| == Max(|xs| + limit.value, 0))
  {
    if IsListCall(resource, operation) then
      if response.JNull? then Err(NullItemsMessage)
      else match ListItems(response)
        case Some(xs) => Ok(Wrap(Truncate(xs, limit), i))
        case None => Ok([Record(response, i)])
    else
      Ok([Record(response, i)])
  }
}
