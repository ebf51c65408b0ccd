/**
 * The node's execute handler: one request per input item, in item order,
 * with the (resource, operation) pair read from item 0; output records
 * collected in item order; a failing item either contributes an error record
 * (continue on fail) or aborts the batch with its index.
 *
 * The specification separates the handler's try block (Attempt: the call and
 * the shaping of its response) from its catch policy (Collect, over the
 * outcomes of all try blocks), so the policy is proved for any outcomes.
 */
module Batch {
  import opened Wrappers
  import opened Values
  import opened Dispatch
  import opened Shaping

  /**
   * The host's authenticated HTTP helper for the call of item i: the parsed
   * JSON response, or the message of the error it throws. Failures of the
   * item's parameter reads are folded into the same Err.
   */
  type Transport = (nat, Request) -> Result<Json>

  /** The outcome of one item's try block: its records, or the message of the error thrown. */
  type Outcome = Result<seq<Record>>

  /** The handler's outcome: the collected records, or the NodeOperationError of the item that aborted the batch. */
  datatype BatchResult = Done(records: seq<Record>) | Aborted(itemIndex: nat, message: string)

  /** The request item i is sent with: item 0's resource and operation, item i's own parameters. */
  function Dispatched(items: seq<ItemParams>, baseUrl: string, i: nat): Request
    requires i < |items|
  {
    BuildRequest(items[0].resource, items[0].operation, items[i], baseUrl)
  }

  /** The requests sent for the first n items, in order. */
  function Requests(items: seq<ItemParams>, baseUrl: string, n: nat): (r: seq<Request>)
    requires n <= |items|
    ensures |r| == n
  {
    if n == 0 then [] else Requests(items, baseUrl, n - 1) + [Dispatched(items, baseUrl, n - 1)]
  }

  lemma {:induction false} RequestAt(items: seq<ItemParams>, baseUrl: string, n: nat, j: nat)
    requires j < n <= |items|
    ensures Requests(items, baseUrl, n)[j] == Dispatched(items, baseUrl, j)
  {
    if j < n - 1 {
      RequestAt(items, baseUrl, n - 1, j);
    }
  }

  /** One request per item, the j-th being item j's. */
  lemma RequestsAreDispatched(items: seq<ItemParams>, baseUrl: string, n: nat)
    requires n <= |items|
    ensures forall j :: 0 <= j < n ==> Requests(items, baseUrl, n)[j] == Dispatched(items, baseUrl, j)
  {
    forall j | 0 <= j < n ensures Requests(items, baseUrl, n)[j] == Dispatched(items, baseUrl, j) {
      RequestAt(items, baseUrl, n, j);
    }
  }

  /** Everything inside the try block for item i: the call and the shaping of its response. */
  function Attempt(items: seq<ItemParams>, baseUrl: string, transport: Transport, i: nat): Outcome
    requires i < |items|
  {
    match transport(i, Dispatched(items, baseUrl, i))
    case Err(m) => Err(m)
    case Ok(response) => Shape(items[0].resource, items[0].operation, items[i].limit, response, i)
  }

  /** The try-block outcome of every item of the batch. */
  function Attempts(items: seq<ItemParams>, baseUrl: string, transport: Transport): seq<Outcome> {
    seq(|items|, i requires 0 <= i < |items| => Attempt(items, baseUrl, transport, i))
  }

  /** What item i adds to the output when it does not abort the batch. */
  function Contribution(outcomes: seq<Outcome>, i: nat): seq<Record>
    requires i < |outcomes|
  {
    match outcomes[i]
    case Ok(records) => records
    case Err(m) => [ErrorRecord(m, i)]
  }

  /** The catch policy applied to the first n outcomes. */
  function Collect(outcomes: seq<Outcome>, continueOnFail: bool, n: nat): BatchResult
    requires n <= |outcomes|
    decreases n
  {
    if n == 0 then Done([])
    else
      match Collect(outcomes, continueOnFail, n - 1)
      case Aborted(j, m) => Aborted(j, m)
      case Done(out) =>
        match outcomes[n - 1]
        case Ok(records) => Done(out + records)
        case Err(m) => if continueOnFail then Done(out + [ErrorRecord(m, n - 1)]) else Aborted(n - 1, m)
  }

  /** The handler's result for a whole batch. */
  function Run(items: seq<ItemParams>, baseUrl: string, continueOnFail: bool, transport: Transport): BatchResult {
    Collect(Attempts(items, baseUrl, transport), continueOnFail, |items|)
  }

  /** One more item: the result so far, then that item's outcome under the failure policy. */
  lemma CollectStep(outcomes: seq<Outcome>, continueOnFail: bool, i: nat, out: seq<Record>)
    requires i < |outcomes|
    requires Collect(outcomes, continueOnFail, i) == Done(out)
    ensures Collect(outcomes, continueOnFail, i + 1) ==
            match outcomes[i]
            case Ok(records) => Done(out + records)
            case Err(m) => if continueOnFail then Done(out + [ErrorRecord(m, i)]) else Aborted(i, m)
  {
  }

  /** The attempt of an item whose call answered: the three ways the try block ends. */
  lemma AttemptOnResponse(items: seq<ItemParams>, baseUrl: string, transport: Transport, i: nat, response: Json)
    requires i < |items|
    requires transport(i, Dispatched(items, baseUrl, i)) == Ok(response)
    ensures var resource, operation := items[0].resource, items[0].operation;
            Attempts(items, baseUrl, transport)[i] ==
              if IsListCall(resource, operation) && response.JNull? then Err(NullItemsMessage)
              else if IsListCall(resource, operation) && ListItems(response).Some? then
                Ok(Wrap(Truncate(ListItems(response).value, items[i].limit), i))
              else Ok([Record(response, i)])
  {
  }

  /** The attempt of an item whose call failed. */
  lemma AttemptOnError(items: seq<ItemParams>, baseUrl: string, transport: Transport, i: nat, message: string)
    requires i < |items|
    requires transport(i, Dispatched(items, baseUrl, i)) == Err(message)
    ensures Attempts(items, baseUrl, transport)[i] == Err(message)
  {
  }

  // ---------------------------------------------------------------- the handler

  /**
   * The try block of execute for item i: build the request from the pair
   * read once from item 0, hand it to the transport, and shape the response.
   * Returns the request sent and the records, or the message of the error
   * thrown, which the caller's catch block handles.
   */
  method TryItem(items: seq<ItemParams>, resource: Resource, operation: Operation, baseUrl: string, transport: Transport, i: nat)
    returns (request: Request, outcome: Outcome)
    requires i < |items| && resource == items[0].resource && operation == items[0].operation
    ensures request == Dispatched(items, baseUrl, i)
    ensures outcome == Attempts(items, baseUrl, transport)[i]
  {
    request := BuildRequest(resource, operation, items[i], baseUrl);
    match transport(i, request) {
      case Ok(responseData) =>
        AttemptOnResponse(items, baseUrl, transport, i, responseData);
        if (resource == Chat || resource == Message) && operation == List {
          var limit := items[i].limit;
          if responseData.JNull? {
            // `responseData.items` throws on null.
            outcome := Err(NullItemsMessage);
          } else {
            var listed := ListItems(responseData);
            if listed.Some? {
              outcome := Ok(Wrap(Truncate(listed.value, limit), i));
            } else {
              outcome := Ok([Record(responseData, i)]);
            }
          }
        } else {
          outcome := Ok([Record(responseData, i)]);
        }
      case Err(message) =>
        AttemptOnError(items, baseUrl, transport, i, message);
        outcome := Err(message);
    }
  }

  /**
   * execute. Returns the outcome and the requests handed to the transport,
   * in order: one per item up to and including the item that aborts.
   */
  method Execute(items: seq<ItemParams>, baseUrl: string, continueOnFail: bool, transport: Transport)
    returns (result: BatchResult, sent: seq<Request>)
    ensures result == Run(items, baseUrl, continueOnFail, transport)
    ensures |sent| == (if result.Aborted? then result.itemIndex + 1 else |items|) && |sent| <= |items|
    ensures sent == Requests(items, baseUrl, |sent|)
  {
    sent := [];
    if |items| == 0 {
      // The loop body, the only place the pair is used, never runs.
      return Done([]), sent;
    }
    ghost var outcomes := Attempts(items, baseUrl, transport);
    var resource := items[0].resource;
    var operation := items[0].operation;
    var returnData: seq<Record> := [];
    for i := 0 to |items|
      invariant Collect(outcomes, continueOnFail, i) == Done(returnData)
      invariant |sent| == i
      invariant sent == Requests(items, baseUrl, i)
    {
      var request, outcome := TryItem(items, resource, operation, baseUrl, transport, i);
      sent := sent + [request];
      CollectStep(outcomes, continueOnFail, i, returnData);
      match outcome {
        case Ok(records) =>
          returnData := returnData + records;
        case Err(error) =>
          // catch
          if continueOnFail {
            returnData := returnData + [ErrorRecord(error, i)];
          } else {
            result := Aborted(i, error);
            AbortedPersists(outcomes, continueOnFail, i + 1, |items|);
            return;
          }
      }
    }
    result := Done(returnData);
  }

  // ---------------------------------------------------------------- properties of the failure policy

  /** Once an item has aborted the batch, later items change nothing. */
  lemma {:induction false} AbortedPersists(outcomes: seq<Outcome>, continueOnFail: bool, n: nat, m: nat)
    requires n <= m <= |outcomes|
    requires Collect(outcomes, continueOnFail, n).Aborted?
    ensures Collect(outcomes, continueOnFail, m) == Collect(outcomes, continueOnFail, n)
    decreases m
  {
    if m > n {
      AbortedPersists(outcomes, continueOnFail, n, m - 1);
    }
  }

  /** A completed run over n items has completed over the first n - 1, and adds item n - 1's contribution. */
  lemma DoneStep(outcomes: seq<Outcome>, continueOnFail: bool, n: nat)
    requires 0 < n <= |outcomes|
    requires Collect(outcomes, continueOnFail, n).Done?
    ensures Collect(outcomes, continueOnFail, n - 1).Done?
    ensures Collect(outcomes, continueOnFail, n).records ==
            Collect(outcomes, continueOnFail, n - 1).records + Contribution(outcomes, n - 1)
  {
  }

  /** With continue on fail the batch always completes. */
  lemma {:induction false} ContinueOnFailCompletes(outcomes: seq<Outcome>, n: nat)
    requires n <= |outcomes|
    ensures Collect(outcomes, true, n).Done?
  {
    if n > 0 {
      ContinueOnFailCompletes(outcomes, n - 1);
    }
  }

  /**
   * Without continue on fail the batch aborts exactly when some item fails,
   * and then at the first failing item, with that item's error.
   */
  lemma {:induction false} AbortsAtFirstFailure(outcomes: seq<Outcome>, n: nat)
    requires n <= |outcomes|
    ensures Collect(outcomes, false, n).Aborted? <==> exists i :: 0 <= i < n && outcomes[i].Err?
    ensures var r := Collect(outcomes, false, n);
            r.Aborted? ==>
              && r.itemIndex < n
              && outcomes[r.itemIndex] == Err(r.message)
              && forall i :: 0 <= i < r.itemIndex ==> outcomes[i].Ok?
  {
    if n > 0 {
      AbortsAtFirstFailure(outcomes, n - 1);
    }
  }

  /** Each outcome's records are paired with the outcome's own item. */
  ghost predicate PairedByIndex(outcomes: seq<Outcome>) {
    forall i, k :: 0 <= i < |outcomes| && outcomes[i].Ok? && 0 <= k < |outcomes[i].value| ==>
      outcomes[i].value[k].pairedItem == i
  }

  /** The node's try blocks pair every record with the item being processed. */
  lemma AttemptsPairedByIndex(items: seq<ItemParams>, baseUrl: string, transport: Transport)
    ensures PairedByIndex(Attempts(items, baseUrl, transport))
  {
    var outcomes := Attempts(items, baseUrl, transport);
    forall i, k | 0 <= i < |outcomes| && outcomes[i].Ok? && 0 <= k < |outcomes[i].value|
      ensures outcomes[i].value[k].pairedItem == i
    {
      assert outcomes[i] == Attempt(items, baseUrl, transport, i);
    }
  }

  lemma ContributionPaired(outcomes: seq<Outcome>, i: nat)
    requires i < |outcomes| && PairedByIndex(outcomes)
    ensures forall k :: 0 <= k < |Contribution(outcomes, i)| ==> Contribution(outcomes, i)[k].pairedItem == i
  {
  }

  /** Only items already processed appear in the output. */
  lemma {:induction false} RecordsFromProcessedItems(outcomes: seq<Outcome>, continueOnFail: bool, n: nat)
    requires n <= |outcomes| && PairedByIndex(outcomes)
    ensures var r := Collect(outcomes, continueOnFail, n);
            r.Done? ==> forall k :: 0 <= k < |r.records| ==> r.records[k].pairedItem < n
  {
    if n > 0 && Collect(outcomes, continueOnFail, n).Done? {
      DoneStep(outcomes, continueOnFail, n);
      RecordsFromProcessedItems(outcomes, continueOnFail, n - 1);
      ContributionPaired(outcomes, n - 1);
      var prev := Collect(outcomes, continueOnFail, n - 1).records;
      var added := Contribution(outcomes, n - 1);
      var records := prev + added;
      forall k | 0 <= k < |records| ensures records[k].pairedItem < n {
        if k < |prev| {
          assert records[k] == prev[k];
        } else {
          assert records[k] == added[k - |prev|];
        }
      }
    }
  }

  /** Records come out in item order: the paired item index never decreases along the output. */
  lemma {:induction false} RecordsInItemOrder(outcomes: seq<Outcome>, continueOnFail: bool, n: nat)
    requires n <= |outcomes| && PairedByIndex(outcomes)
    ensures var r := Collect(outcomes, continueOnFail, n);
            r.Done? ==> forall a, b :: 0 <= a <= b < |r.records| ==> r.records[a].pairedItem <= r.records[b].pairedItem
  {
    if n > 0 && Collect(outcomes, continueOnFail, n).Done? {
      DoneStep(outcomes, continueOnFail, n);
      RecordsInItemOrder(outcomes, continueOnFail, n - 1);
      RecordsFromProcessedItems(outcomes, continueOnFail, n - 1);
      ContributionPaired(outcomes, n - 1);
      var prev := Collect(outcomes, continueOnFail, n - 1).records;
      var added := Contribution(outcomes, n - 1);
      var records := prev + added;
      forall a, b | 0 <= a <= b < |records| ensures records[a].pairedItem <= records[b].pairedItem {
        if b < |prev| {
          assert records[a] == prev[a] && records[b] == prev[b];
        } else if a < |prev| {
          assert records[a] == prev[a] && records[b] == added[b - |prev|];
        } else {
          assert records[a] == added[a - |prev|] && records[b] == added[b - |prev|];
        }
      }
    }
  }

  function Keep(record: Record, i: nat): seq<Record> {
    if record.pairedItem == i then [record] else []
  }

  /** The records of item i, in output order. */
  function PairedWith(records: seq<Record>, i: nat): seq<Record> {
    if records == [] then [] else Keep(records[0], i) + PairedWith(records[1..], i)
  }

  lemma {:induction false} PairedWithAppend(a: seq<Record>, b: seq<Record>, i: nat)
    ensures PairedWith(a + b, i) == PairedWith(a, i) + PairedWith(b, i)
  {
    if a == [] {
      assert a + b == b;
    } else {
      assert (a + b)[0] == a[0] && (a + b)[1..] == a[1..] + b;
      PairedWithAppend(a[1..], b, i);
      calc {
        PairedWith(a + b, i);
        Keep(a[0], i) + PairedWith(a[1..] + b, i);
        Keep(a[0], i) + (PairedWith(a[1..], i) + PairedWith(b, i));
        (Keep(a[0], i) + PairedWith(a[1..], i)) + PairedWith(b, i);
      }
    }
  }

  lemma {:induction false} PairedWithAll(records: seq<Record>, i: nat)
    requires forall k :: 0 <= k < |records| ==> records[k].pairedItem == i
    ensures PairedWith(records, i) == records
  {
    if records != [] {
      PairedWithAll(records[1..], i);
      assert [records[0]] + records[1..] == records;
    }
  }

  lemma {:induction false} PairedWithNone(records: seq<Record>, i: nat)
    requires forall k :: 0 <= k < |records| ==> records[k].pairedItem != i
    ensures PairedWith(records, i) == []
  {
    if records != [] {
      PairedWithNone(records[1..], i);
    }
  }

  /** The records of the item just added are exactly its contribution. */
  lemma LastItemRecords(outcomes: seq<Outcome>, continueOnFail: bool, n: nat)
    requires 0 < n <= |outcomes| && PairedByIndex(outcomes)
    requires Collect(outcomes, continueOnFail, n).Done?
    ensures PairedWith(Collect(outcomes, continueOnFail, n).records, n - 1) == Contribution(outcomes, n - 1)
  {
    DoneStep(outcomes, continueOnFail, n);
    var prev := Collect(outcomes, continueOnFail, n - 1).records;
    var added := Contribution(outcomes, n - 1);
    PairedWithAppend(prev, added, n - 1);
    RecordsFromProcessedItems(outcomes, continueOnFail, n - 1);
    PairedWithNone(prev, n - 1);
    ContributionPaired(outcomes, n - 1);
    PairedWithAll(added, n - 1);
    var before, mine := PairedWith(prev, n - 1), PairedWith(added, n - 1);
    assert before == [] && mine == added;
    assert before + mine == added;
  }

  /** Adding a later item leaves the records of an earlier one as they were. */
  lemma EarlierItemRecords(outcomes: seq<Outcome>, continueOnFail: bool, n: nat, i: nat)
    requires i + 1 < n <= |outcomes| && PairedByIndex(outcomes)
    requires Collect(outcomes, continueOnFail, n).Done?
    ensures Collect(outcomes, continueOnFail, n - 1).Done?
    ensures PairedWith(Collect(outcomes, continueOnFail, n).records, i) ==
            PairedWith(Collect(outcomes, continueOnFail, n - 1).records, i)
  {
    DoneStep(outcomes, continueOnFail, n);
    var prev := Collect(outcomes, continueOnFail, n - 1).records;
    var added := Contribution(outcomes, n - 1);
    PairedWithAppend(prev, added, i);
    ContributionPaired(outcomes, n - 1);
    PairedWithNone(added, i);
    var before, mine := PairedWith(prev, i), PairedWith(added, i);
    assert mine == [];
    assert before + mine == before;
  }

  /**
   * The records paired with item i are exactly what that item contributes:
   * its shaped response when it succeeds, the single {error: message} record
   * when it fails and the batch continues. Failures of other items do not
   * touch them.
   */
  lemma {:induction false} RecordsOfItem(outcomes: seq<Outcome>, continueOnFail: bool, n: nat, i: nat)
    requires i < n <= |outcomes| && PairedByIndex(outcomes)
    ensures var r := Collect(outcomes, continueOnFail, n);
            r.Done? ==> PairedWith(r.records, i) == Contribution(outcomes, i)
  {
    if Collect(outcomes, continueOnFail, n).Done? {
      if i == n - 1 {
        LastItemRecords(outcomes, continueOnFail, n);
      } else {
        EarlierItemRecords(outcomes, continueOnFail, n, i);
        RecordsOfItem(outcomes, continueOnFail, n - 1, i);
      }
    }
  }

  // ---------------------------------------------------------------- the same, for the node's own batch

  /**
   * In a completed batch, the records of item i are its shaped response, or
   * the single {error: message} record when its try block threw.
   */
  lemma RunRecordsOfItem(items: seq<ItemParams>, baseUrl: string, continueOnFail: bool, transport: Transport, i: nat)
    requires i < |items|
    ensures var r := Run(items, baseUrl, continueOnFail, transport);
            r.Done? ==> PairedWith(r.records, i) == Contribution(Attempts(items, baseUrl, transport), i)
  {
    AttemptsPairedByIndex(items, baseUrl, transport);
    RecordsOfItem(Attempts(items, baseUrl, transport), continueOnFail, |items|, i);
  }

  /** With continue on fail the batch completes, with every record paired with an item, in item order. */
  lemma RunContinueOnFail(items: seq<ItemParams>, baseUrl: string, transport: Transport)
    ensures var r := Run(items, baseUrl, true, transport);
            && r.Done?
            && (forall k :: 0 <= k < |r.records| ==> r.records[k].pairedItem < |items|)
            && (forall a, b :: 0 <= a <= b < |r.records| ==> r.records[a].pairedItem <= r.records[b].pairedItem)
  {
    var outcomes := Attempts(items, baseUrl, transport);
    AttemptsPairedByIndex(items, baseUrl, transport);
    ContinueOnFailCompletes(outcomes, |items|);
    RecordsFromProcessedItems(outcomes, true, |items|);
    RecordsInItemOrder(outcomes, true, |items|);
  }

  /**
   * Without continue on fail the batch aborts exactly when some item's try
   * block throws, at the first such item and with its error.
   */
  lemma RunAbortsAtFirstFailure(items: seq<ItemParams>, baseUrl: string, transport: Transport)
    ensures var outcomes := Attempts(items, baseUrl, transport);
            var r := Run(items, baseUrl, false, transport);
            && (r.Aborted? <==> exists i :: 0 <= i < |items| && outcomes[i].Err?)
            && (r.Aborted? ==>
                  && r.itemIndex < |items|
                  && outcomes[r.itemIndex] == Err(r.message)
                  && forall i :: 0 <= i < r.itemIndex ==> outcomes[i].Ok?)
  {
    AbortsAtFirstFailure(Attempts(items, baseUrl, transport), |items|);
  }
}
