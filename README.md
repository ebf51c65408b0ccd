# Beeper node for n8n: a verified model of `execute`

The Beeper node exposes the Beeper Desktop REST API (accounts, chats, contacts,
messages) as operations in an n8n workflow. Everything it does happens in
`Beeper.execute`, and this project models that method in three parts:

- **Request construction** (`Dispatch`). For each input item, the selected
  (resource, operation) pair and the item's parameters become one request:
  a method (GET or POST), the URL `baseUrl + endpoint`, the query-string map
  `qs` and an optional JSON body. A body with no keys is not sent. User ids
  are passed through `encodeURIComponent` before they go into the path.
  `Prepare` follows the handler's branch chain. `RouteOf` is the same
  dispatch table written as data, one row per documented pair, and
  `BuildRequestFollowsTable` proves that the two agree. A pair with no row is
  not rejected: it becomes a GET to the bare base URL.
- **`encodeURIComponent`** (`UriComponent`). This is ECMAScript's Encode
  operation over the full UTF-8 encoding of each code point. It is proved to
  emit only unescaped characters and `%`, and to be undone by `Decode`, so it
  is injective. As a result, an id cannot add a path segment, a query or a
  fragment to the endpoint.
- **Response shaping and the batch loop** (`Shaping`, `Batch`). For list on
  chats and messages, the elements of the response's `items` array become
  records, cut by the item's `limit` option as `items.slice(0, limit)`. Any
  other response becomes one record. Every record is paired with its input
  item. `Execute` is the handler's loop, written as a method. `TryItem` is its
  `try` block. `Execute` is proved equal to the specification function `Run`.
  `Run` applies the `catch` policy (`Collect`) to the outcome of every item's
  `try` block (`Attempts`). The policy's properties are proved for any
  outcomes. Under continue-on-fail, a failing item adds one `{error: message}`
  record. Otherwise the batch aborts at the first failing item and reports that
  item's index.

The host's services are parameters of the model. The authenticated HTTP
helper is a `Transport` function from (item index, request) to a JSON
response or an error message. The credential is the `baseUrl` string. The
values `getNodeParameter` returns for each item are `ItemParams` records. The
resource and operation are taken from item 0, as the handler reads them once,
at index 0, for the whole batch.

Three places where the code differs from what a reader of the form would expect:

- The `limit` option has a form default of 50, but the `options` collection
  starts empty. A node that never adds the option therefore reads no limit
  and emits every element.
- The limit test is `limit && items.length > limit`, so a limit of 0 also
  keeps every element. A negative limit, which the form's 1–100 bounds rule
  out but the handler does not, drops that many elements from the end, as
  `slice` does.
- For list operations the handler reads `responseData.items` before checking
  that it is an array. A `null` response therefore throws inside the `try`.
  Like any other item failure, that error becomes an error record or aborts
  the batch.

## Model

| member | source | states |
|---|---|---|
| `UriComponent.Encode` | nodes/Beeper/Beeper.node.ts:395 | every character of the encoded id is a letter, a digit, one of `- _ . ! ~ * ' ( )`, or `%` |
| `UriComponent.EncodeHasNoDelimiters` | nodes/Beeper/Beeper.node.ts:395 | the encoded id contains no `/`, `?` or `#` |
| `UriComponent.DecodeEncode` | nodes/Beeper/Beeper.node.ts:395 | decoding the encoding of any string (any Unicode scalar values, full UTF-8) gives the string back |
| `UriComponent.EncodeInjective` | nodes/Beeper/Beeper.node.ts:395 | two different ids never get the same encoded path segment |
| `UriComponent.EncodeUnescapedIdentity` | nodes/Beeper/Beeper.node.ts:395 | an id made only of unescaped characters is put into the path unchanged |
| `UriComponent.EncodeEscapes` | nodes/Beeper/Beeper.node.ts:395 | any other character becomes one three-character `%XY` escape per UTF-8 octet: 1 octet below U+0080, 2 below U+0800, 3 below U+10000, 4 above |
| `UriComponent.Utf8RoundTrip` | nodes/Beeper/Beeper.node.ts:395 | the UTF-8 octets that encodeURIComponent escapes decode back to the original code points |
| `Dispatch.Prepare` | nodes/Beeper/Beeper.node.ts:375-458 | no contract; the branch chain, shown equal to the table by `BuildRequestFollowsTable` and `EndpointFollowsTable` |
| `Dispatch.BuildRequest` | nodes/Beeper/Beeper.node.ts:461-466 | no contract; see `BuildRequestFollowsTable`, `PostExactlyWithBody`, `PostBodies` and `QueryOnlyForSearches` |
| `Dispatch.RouteOf` | nodes/Beeper/Beeper.node.ts:381-458 | the dispatch table has a row exactly for the ten documented (resource, operation) pairs |
| `Dispatch.BuildRequestFollowsTable` | nodes/Beeper/Beeper.node.ts:375-466 | the branch chain builds exactly the request of the pair's table row, and the bare GET for a pair with no row |
| `Dispatch.DocumentedEndpoints` | nodes/Beeper/Beeper.node.ts:381-458 | the method and full URL of each of the ten pairs, with ids percent-encoded in the path |
| `Dispatch.PostExactlyWithBody` | nodes/Beeper/Beeper.node.ts:398-466 | a request carries a body if and only if it is a POST, and only chat create, chat archive and message send are POSTs |
| `Dispatch.PostBodies` | nodes/Beeper/Beeper.node.ts:398-436 | chat create sends exactly {account_id, recipient}, chat archive exactly {archive}, message send exactly {text}, with the item's values |
| `Dispatch.QueryOnlyForSearches` | nodes/Beeper/Beeper.node.ts:378-457 | the query string is non-empty if and only if the operation is search on chat, message or contact, and then it is exactly {q: query} |
| `Dispatch.UndocumentedPairIsBareGet` | nodes/Beeper/Beeper.node.ts:375-466 | an unrecognised pair yields GET to the base URL with an empty query and no body |
| `Dispatch.EndpointFollowsTable` | nodes/Beeper/Beeper.node.ts:376-458 | the endpoint is the table row's template with encoded ids, and empty for an unrecognised pair |
| `Dispatch.IdsCannotReshapeEndpoint` | nodes/Beeper/Beeper.node.ts:393-457 | for a given pair, the endpoint has the same number of `/`, `?` and `#` whatever ids the item carries |
| `Dispatch.SameTemplateSameSeparators` | nodes/Beeper/Beeper.node.ts:393-457 | templates that differ only in their ids render with the same number of `/`, `?` and `#` |
| `Shaping.ListItems` | nodes/Beeper/Beeper.node.ts:480 | no contract; the `items` array of an object response, see `Shape` |
| `Shaping.Wrap` | nodes/Beeper/Beeper.node.ts:485-497 | one record per value, in order, each paired with item i |
| `Shaping.ErrorRecord` | nodes/Beeper/Beeper.node.ts:502-505 | no contract; the {error: message} record paired with item i, see `RecordsOfItem` |
| `Shaping.Truncate` | nodes/Beeper/Beeper.node.ts:478-484 | the result is a prefix of `items`, in order: all of them for a missing or zero limit, min(limit, length) for a positive limit, length + limit (at least 0) for a negative one |
| `Shaping.Shape` | nodes/Beeper/Beeper.node.ts:474-499 | list on chat or message with an `items` array emits the cut elements; any other response is one record; every record is paired with item i; it fails only for a list call on a null response |
| `Batch.Attempt` | nodes/Beeper/Beeper.node.ts:374-499 | no contract; item i's `try` block, see `TryItem` and `AttemptsPairedByIndex` |
| `Batch.Collect` | nodes/Beeper/Beeper.node.ts:500-509 | no contract; the `catch` policy, see `AbortedPersists`, `ContinueOnFailCompletes`, `AbortsAtFirstFailure` and `RecordsOfItem` |
| `Batch.Run` | nodes/Beeper/Beeper.node.ts:363-513 | no contract; see `Execute`, `RunRecordsOfItem`, `RunContinueOnFail` and `RunAbortsAtFirstFailure` |
| `Batch.TryItem` | nodes/Beeper/Beeper.node.ts:374-499 | returns the request built from item 0's resource and operation and item i's parameters, and exactly item i's `try`-block outcome: the call's error, the TypeError for a null list response, or the shaped records |
| `Batch.Execute` | nodes/Beeper/Beeper.node.ts:363-513 | the result is `Run`: the `catch` policy applied in item order to every item's `try`-block outcome; the requests sent are exactly those of the items up to and including the aborting one, in order |
| `Batch.RequestsAreDispatched` | nodes/Beeper/Beeper.node.ts:367-466 | the j-th request sent is built from the resource and operation read at item 0 and from item j's own parameters |
| `Batch.AttemptsPairedByIndex` | nodes/Beeper/Beeper.node.ts:485-499 | every record produced by item i's `try` block is paired with item i |
| `Batch.AbortedPersists` | nodes/Beeper/Beeper.node.ts:508 | once an item has aborted the batch, later items change nothing |
| `Batch.ContinueOnFailCompletes` | nodes/Beeper/Beeper.node.ts:500-506 | with continue-on-fail the batch always completes |
| `Batch.AbortsAtFirstFailure` | nodes/Beeper/Beeper.node.ts:500-509 | without continue-on-fail the batch aborts if and only if some item fails, at the first failing index and with that item's error |
| `Batch.RecordsFromProcessedItems` | nodes/Beeper/Beeper.node.ts:373-510 | after n items, every output record is paired with one of those n items |
| `Batch.RecordsInItemOrder` | nodes/Beeper/Beeper.node.ts:373-510 | the paired item index never decreases along the output |
| `Batch.RecordsOfItem` | nodes/Beeper/Beeper.node.ts:485-506 | the records paired with item i are exactly its shaped response, or the single {error: message} record when it failed and the batch continued |
| `Batch.RunRecordsOfItem` | nodes/Beeper/Beeper.node.ts:485-506 | in a completed batch, the records paired with item i are that item's `try`-block records, or its single {error: message} record |
| `Batch.RunContinueOnFail` | nodes/Beeper/Beeper.node.ts:500-506 | with continue-on-fail the batch completes, every record is paired with an input item, and the records are in item order |
| `Batch.RunAbortsAtFirstFailure` | nodes/Beeper/Beeper.node.ts:500-509 | without continue-on-fail the batch aborts if and only if some item's `try` block throws, at the first such item and with its error |

## Left out

- The credential descriptor (credentials/BeeperApi.credentials.ts) is a declaration the host evaluates. It has no logic of its own.
- The node's `description` literal (form metadata) is not modelled. Only its option values are used, as the `Resource` and `Operation` datatypes. Strings outside those lists are not modelled, and neither are the form's field visibility rules or the 1–100 bounds of `limit`.
- `httpRequestWithAuthentication`, `getCredentials`, `getNodeParameter` and the async machinery are host calls. They become the `Transport` parameter, the `baseUrl` parameter and the `ItemParams` records.
- A parameter read that throws inside the `try` block has the same effect as a failed call. The model folds it into the transport's error for that item, so that item still counts among the requests `Execute` reports as sent.
- `returnJsonArray` and `constructExecutionMetaData` are modelled as "one record per value, paired with item i". Their other behaviour is not modelled: a top-level array response is split into several records, and a value with a `json` key is unwrapped.
- The error raised when the batch aborts keeps only the item index and the message. The rest of how `NodeOperationError` is built is not modelled.
- JSON numbers are integers only. A fractional `limit`, which `slice` would truncate, is not modelled.
- An `undefined` response (an empty body) is not distinguished from `null`.
- Lone UTF-16 surrogates, on which `encodeURIComponent` throws `URIError`, cannot occur because model strings are sequences of Unicode scalar values.
- `UriComponent.Decode` is the model's own inverse of the encoder. Unlike `decodeURIComponent`, it refuses a literal non-ASCII character, which the encoder never produces.
