/**
 * Request construction of the Beeper node: from the selected resource and
 * operation, one item's parameters and the credential's base URL to the
 * request handed to the host's authenticated HTTP helper.
 */
module Dispatch {
  import opened Wrappers
  import opened Values
  import UriComponent

  datatype Method = GET | POST

  /** The values of the `resource` option: 'account', 'chat', 'contact', 'message'. */
  datatype Resource = Account | Chat | Contact | Message

  /** The values of the `operation` options, over all resources: 'list', 'get', 'create', 'search', 'archive', 'send'. */
  datatype Operation = List | Get | Create | Search | Archive | Send

  /**
   * What getNodeParameter returns for one item. Only the fields the selected
   * (resource, operation) needs are ever read; resource and operation are
   * read from item 0 for the whole batch.
   */
  datatype ItemParams = ItemParams(
    resource: Resource,
    operation: Operation,
    chatId: string,
    accountId: string,
    recipient: string,
    archive: bool,
    searchQuery: string,
    contactQuery: string,
    messageText: string,
    limit: Option<int>)

  /** The request options: method, full URL, query-string parameters and an optional JSON body. */
  datatype Request = Request(httpMethod: Method, url: string, qs: map<string, string>, body: Option<map<string, Json>>)

  /** The four variables the branches of the handler set: method, endpoint, body and qs. */
  datatype Prepared = Prepared(httpMethod: Method, endpoint: string, body: map<string, Json>, qs: map<string, string>)

  /** The branch chain over (resource, operation); an unmatched pair keeps the initial GET, "", {}, {}. */
  function Prepare(resource: Resource, operation: Operation, p: ItemParams): Prepared {
    if resource == Account && operation == List then
      Prepared(GET, "/v1/accounts", map[], map[])
    else if resource == Chat && operation == List then
      Prepared(GET, "/v1/chats", map[], map[])
    else if resource == Chat && operation == Get then
      Prepared(GET, "/v1/chats/" + UriComponent.Encode(p.chatId), map[], map[])
    else if resource == Chat && operation == Create then
      Prepared(POST, "/v1/chats", map["account_id" := JString(p.accountId), "recipient" := JString(p.recipient)], map[])
    else if resource == Chat && operation == Search then
      Prepared(GET, "/v1/chats/search", map[], map["q" := p.searchQuery])
    else if resource == Chat && operation == Archive then
      Prepared(POST, "/v1/chats/" + UriComponent.Encode(p.chatId) + "/archive", map["archive" := JBool(p.archive)], map[])
    else if resource == Message && operation == Send then
      Prepared(POST, "/v1/chats/" + UriComponent.Encode(p.chatId) + "/messages", map["text" := JString(p.messageText)], map[])
    else if resource == Message && operation == List then
      Prepared(GET, "/v1/chats/" + UriComponent.Encode(p.chatId) + "/messages", map[], map[])
    else if resource == Message && operation == Search then
      Prepared(GET, "/v1/messages/search", map[], map["q" := p.searchQuery])
    else if resource == Contact && operation == Search then
      Prepared(GET, "/v1/accounts/" + UriComponent.Encode(p.accountId) + "/contacts", map[], map["q" := p.contactQuery])
    else
      Prepared(GET, "", map[], map[])
  }

  /** The request options: the URL is the base URL followed by the endpoint; a body without keys is not sent. */
  function BuildRequest(resource: Resource, operation: Operation, p: ItemParams, baseUrl: string): Request {
    var prepared := Prepare(resource, operation, p);
    Request(prepared.httpMethod, baseUrl + prepared.endpoint, prepared.qs,
            if |prepared.body| > 0 then Some(prepared.body) else None)
  }

  // ---------------------------------------------------------------- the dispatch table

  /** A piece of an endpoint: fixed text, or a user-supplied id that is percent-encoded. */
  datatype Segment = Fixed(text: string) | Escaped(raw: string)

  /** One row of the dispatch table: method, endpoint template, body and the value of `q`, if any. */
  datatype Route = Route(httpMethod: Method, path: seq<Segment>, body: map<string, Json>, query: Option<string>)

  /** The (resource, operation) pairs the node offers. */
  predicate Documented(resource: Resource, operation: Operation) {
    match resource
    case Account => operation == List
    case Chat => operation == List || operation == Get || operation == Create || operation == Search || operation == Archive
    case Message => operation == Send || operation == List || operation == Search
    case Contact => operation == Search
  }

  /** The dispatch table, one row per documented pair, written independently of the branch chain. */
  function RouteOf(resource: Resource, operation: Operation, p: ItemParams): (r: Option<Route>)
    ensures r.Some? <==> Documented(resource, operation)
  {
    match (resource, operation)
    case (Account, List) => Some(Route(GET, [Fixed("/v1/accounts")], map[], None))
    case (Chat, List) => Some(Route(GET, [Fixed("/v1/chats")], map[], None))
    case (Chat, Get) => Some(Route(GET, [Fixed("/v1/chats/"), Escaped(p.chatId)], map[], None))
    case (Chat, Create) =>
      Some(Route(POST, [Fixed("/v1/chats")],
                 map["account_id" := JString(p.accountId), "recipient" := JString(p.recipient)], None))
    case (Chat, Search) => Some(Route(GET, [Fixed("/v1/chats/search")], map[], Some(p.searchQuery)))
    case (Chat, Archive) =>
      Some(Route(POST, [Fixed("/v1/chats/"), Escaped(p.chatId), Fixed("/archive")],
                 map["archive" := JBool(p.archive)], None))
    case (Message, Send) =>
      Some(Route(POST, [Fixed("/v1/chats/"), Escaped(p.chatId), Fixed("/messages")],
                 map["text" := JString(p.messageText)], None))
    case (Message, List) =>
      Some(Route(GET, [Fixed("/v1/chats/"), Escaped(p.chatId), Fixed("/messages")], map[], None))
    case (Message, Search) => Some(Route(GET, [Fixed("/v1/messages/search")], map[], Some(p.searchQuery)))
    case (Contact, Search) =>
      Some(Route(GET, [Fixed("/v1/accounts/"), Escaped(p.accountId), Fixed("/contacts")], map[], Some(p.contactQuery)))
    case _ => None
  }

  function SegmentText(s: Segment): string {
    match s
    case Fixed(text) => text
    case Escaped(raw) => UriComponent.Encode(raw)
  }

  function PathText(path: seq<Segment>): string {
    if path == [] then "" else SegmentText(path[0]) + PathText(path[1..])
  }

  /** The request a table row stands for. */
  function Render(route: Route, baseUrl: string): Request {
    Request(route.httpMethod, baseUrl + PathText(route.path),
            if route.query.Some? then map["q" := route.query.value] else map[],
            if route.body == map[] then None else Some(route.body))
  }

  /** The request of a pair outside the table: GET to the bare base URL, no query, no body. */
  function BareRequest(baseUrl: string): Request {
    Request(GET, baseUrl, map[], None)
  }

  lemma PathOfOne(a: string)
    ensures PathText([Fixed(a)]) == a
  {
    assert [Fixed(a)][1..] == [];
    assert a + "" == a;
  }

  lemma PathOfTwo(a: string, id: string)
    ensures PathText([Fixed(a), Escaped(id)]) == a + UriComponent.Encode(id)
  {
    assert [Fixed(a), Escaped(id)][1..] == [Escaped(id)];
    assert [Escaped(id)][1..] == [];
    assert PathText([Escaped(id)]) == UriComponent.Encode(id) + PathText([]);
    assert UriComponent.Encode(id) + "" == UriComponent.Encode(id);
  }

  lemma PathOfThree(a: string, id: string, b: string)
    ensures PathText([Fixed(a), Escaped(id), Fixed(b)]) == a + UriComponent.Encode(id) + b
  {
    assert [Fixed(a), Escaped(id), Fixed(b)][1..] == [Escaped(id), Fixed(b)];
    assert [Escaped(id), Fixed(b)][1..] == [Fixed(b)];
    PathOfOne(b);
  }

  /** The request the table gives a pair: its row's, or the bare GET when it has none. */
  function TableRequest(resource: Resource, operation: Operation, p: ItemParams, baseUrl: string): Request {
    match RouteOf(resource, operation, p)
    case Some(route) => Render(route, baseUrl)
    case None => BareRequest(baseUrl)
  }

  lemma AccountFollowsTable(operation: Operation, p: ItemParams, baseUrl: string)
    ensures BuildRequest(Account, operation, p, baseUrl) == TableRequest(Account, operation, p, baseUrl)
  {
    if operation == List {
      PathOfOne("/v1/accounts");
    } else {
      assert baseUrl + "" == baseUrl;
    }
  }

  lemma ContactFollowsTable(operation: Operation, p: ItemParams, baseUrl: string)
    ensures BuildRequest(Contact, operation, p, baseUrl) == TableRequest(Contact, operation, p, baseUrl)
  {
    match operation
    case Search =>
      var path := [Fixed("/v1/accounts/"), Escaped(p.accountId), Fixed("/contacts")];
      PathOfThree("/v1/accounts/", p.accountId, "/contacts");
      assert Prepare(Contact, Search, p) == Prepared(GET, PathText(path), map[], map["q" := p.contactQuery]);
      assert RouteOf(Contact, Search, p) == Some(Route(GET, path, map[], Some(p.contactQuery)));
    case _ => assert baseUrl + "" == baseUrl;
  }

  lemma ChatFollowsTable(operation: Operation, p: ItemParams, baseUrl: string)
    ensures BuildRequest(Chat, operation, p, baseUrl) == TableRequest(Chat, operation, p, baseUrl)
  {
    match operation
    case List => PathOfOne("/v1/chats");
    case Get => PathOfTwo("/v1/chats/", p.chatId);
    case Create =>
      PathOfOne("/v1/chats");
      var body := map["account_id" := JString(p.accountId), "recipient" := JString(p.recipient)];
      assert body.Keys == {"account_id", "recipient"};
      assert |body| == 2;
    case Search => PathOfOne("/v1/chats/search");
    case Archive =>
      PathOfThree("/v1/chats/", p.chatId, "/archive");
      assert |map["archive" := JBool(p.archive)]| == 1;
    case Send => assert baseUrl + "" == baseUrl;
  }

  lemma MessageFollowsTable(operation: Operation, p: ItemParams, baseUrl: string)
    ensures BuildRequest(Message, operation, p, baseUrl) == TableRequest(Message, operation, p, baseUrl)
  {
    match operation
    case Send =>
      PathOfThree("/v1/chats/", p.chatId, "/messages");
      assert |map["text" := JString(p.messageText)]| == 1;
    case List => PathOfThree("/v1/chats/", p.chatId, "/messages");
    case Search => PathOfOne("/v1/messages/search");
    case _ => assert baseUrl + "" == baseUrl;
  }

  /**
   * The branch chain agrees with the table: a documented pair gives its row's
   * request, any other pair the bare GET to the base URL.
   */
  lemma BuildRequestFollowsTable(resource: Resource, operation: Operation, p: ItemParams, baseUrl: string)
    ensures BuildRequest(resource, operation, p, baseUrl) ==
            match RouteOf(resource, operation, p)
            case Some(route) => Render(route, baseUrl)
            case None => BareRequest(baseUrl)
  {
    match resource
    case Account => AccountFollowsTable(operation, p, baseUrl);
    case Chat => ChatFollowsTable(operation, p, baseUrl);
    case Message => MessageFollowsTable(operation, p, baseUrl);
    case Contact => ContactFollowsTable(operation, p, baseUrl);
  }

  // ---------------------------------------------------------------- properties of the requests

  /** A request is a POST exactly when it carries a body; the only POSTs are chat create, chat archive and message send. */
  lemma PostExactlyWithBody(resource: Resource, operation: Operation, p: ItemParams, baseUrl: string)
    ensures var r := BuildRequest(resource, operation, p, baseUrl);
            && (r.httpMethod == POST <==> r.body.Some?)
            && (r.httpMethod == POST <==> (resource == Chat && (operation == Create || operation == Archive)) || (resource == Message && operation == Send))
  {
    BuildRequestFollowsTable(resource, operation, p, baseUrl);
  }

  /** The POST bodies hold exactly the documented keys and the item's values. */
  lemma PostBodies(resource: Resource, operation: Operation, p: ItemParams, baseUrl: string)
    ensures var r := BuildRequest(resource, operation, p, baseUrl);
            && (resource == Chat && operation == Create ==>
                  r.body == Some(map["account_id" := JString(p.accountId), "recipient" := JString(p.recipient)]))
            && (resource == Chat && operation == Archive ==> r.body == Some(map["archive" := JBool(p.archive)]))
            && (resource == Message && operation == Send ==> r.body == Some(map["text" := JString(p.messageText)]))
            && (r.body.Some? ==> r.body.value.Keys <= {"account_id", "recipient", "archive", "text"})
  {
    BuildRequestFollowsTable(resource, operation, p, baseUrl);
  }

  /** Only the three searches have a query string, and it is exactly {q: <query>}. */
  lemma QueryOnlyForSearches(resource: Resource, operation: Operation, p: ItemParams, baseUrl: string)
    ensures var r := BuildRequest(resource, operation, p, baseUrl);
            && (r.qs != map[] <==> operation == Search && resource != Account)
            && (r.qs != map[] ==> r.qs == map["q" := if resource == Contact then p.contactQuery else p.searchQuery])
  {
    BuildRequestFollowsTable(resource, operation, p, baseUrl);
  }

  /** The fixed method and URL of every documented pair. */
  lemma DocumentedEndpoints(resource: Resource, operation: Operation, p: ItemParams, baseUrl: string)
    ensures var r := BuildRequest(resource, operation, p, baseUrl);
            var enc := UriComponent.Encode;
            && (resource == Account && operation == List ==> r.httpMethod == GET && r.url == baseUrl + "/v1/accounts")
            && (resource == Chat && operation == List ==> r.httpMethod == GET && r.url == baseUrl + "/v1/chats")
            && (resource == Chat && operation == Get ==> r.httpMethod == GET && r.url == baseUrl + "/v1/chats/" + enc(p.chatId))
            && (resource == Chat && operation == Create ==> r.httpMethod == POST && r.url == baseUrl + "/v1/chats")
            && (resource == Chat && operation == Search ==> r.httpMethod == GET && r.url == baseUrl + "/v1/chats/search")
            && (resource == Chat && operation == Archive ==>
                  r.httpMethod == POST && r.url == baseUrl + "/v1/chats/" + enc(p.chatId) + "/archive")
            && (resource == Message && operation == Send ==>
                  r.httpMethod == POST && r.url == baseUrl + "/v1/chats/" + enc(p.chatId) + "/messages")
            && (resource == Message && operation == List ==>
                  r.httpMethod == GET && r.url == baseUrl + "/v1/chats/" + enc(p.chatId) + "/messages")
            && (resource == Message && operation == Search ==> r.httpMethod == GET && r.url == baseUrl + "/v1/messages/search")
            && (resource == Contact && operation == Search ==>
                  r.httpMethod == GET && r.url == baseUrl + "/v1/accounts/" + enc(p.accountId) + "/contacts")
  {
    var enc := UriComponent.Encode;
    var prefix := baseUrl + "/v1/chats/";
    assert prefix + enc(p.chatId) == baseUrl + ("/v1/chats/" + enc(p.chatId));
    assert prefix + enc(p.chatId) + "/archive" == baseUrl + ("/v1/chats/" + enc(p.chatId) + "/archive");
    assert prefix + enc(p.chatId) + "/messages" == baseUrl + ("/v1/chats/" + enc(p.chatId) + "/messages");
    assert baseUrl + "/v1/accounts/" + enc(p.accountId) + "/contacts" ==
           baseUrl + ("/v1/accounts/" + enc(p.accountId) + "/contacts");
  }

  /** A pair outside the table is not rejected: it becomes a GET to the bare base URL with no query and no body. */
  lemma UndocumentedPairIsBareGet(resource: Resource, operation: Operation, p: ItemParams, baseUrl: string)
    requires !Documented(resource, operation)
    ensures BuildRequest(resource, operation, p, baseUrl) == Request(GET, baseUrl, map[], None)
  {
    BuildRequestFollowsTable(resource, operation, p, baseUrl);
  }

  // ---------------------------------------------------------------- ids cannot reshape the endpoint

  /** The endpoint of a documented pair is its rendered template; any other pair has none. */
  lemma EndpointFollowsTable(resource: Resource, operation: Operation, p: ItemParams)
    ensures Prepare(resource, operation, p).endpoint ==
            match RouteOf(resource, operation, p)
            case Some(route) => PathText(route.path)
            case None => ""
  {
    var e := Prepare(resource, operation, p).endpoint;
    BuildRequestFollowsTable(resource, operation, p, "");
    assert "" + e == e;
  }

  /** Two templates that differ at most in the ids they carry. */
  predicate SameTemplate(path: seq<Segment>, path': seq<Segment>) {
    && |path| == |path'|
    && forall k :: 0 <= k < |path| ==> (path[k].Fixed? <==> path'[k].Fixed?) && (path[k].Fixed? ==> path[k] == path'[k])
  }

  /** Templates that differ only in their ids render with the same number of '/', '?' and '#'. */
  lemma {:induction false} SameTemplateSameSeparators(c: char, path: seq<Segment>, path': seq<Segment>)
    requires c == '/' || c == '?' || c == '#'
    requires SameTemplate(path, path')
    ensures multiset(PathText(path))[c] == multiset(PathText(path'))[c]
  {
    if path != [] {
      assert PathText(path) == SegmentText(path[0]) + PathText(path[1..]);
      assert PathText(path') == SegmentText(path'[0]) + PathText(path'[1..]);
      assert SameTemplate(path[1..], path'[1..]) by {
        forall k | 0 <= k < |path[1..]|
          ensures (path[1..][k].Fixed? <==> path'[1..][k].Fixed?) && (path[1..][k].Fixed? ==> path[1..][k] == path'[1..][k])
        {
          assert path[1..][k] == path[k + 1] && path'[1..][k] == path'[k + 1];
        }
      }
      SameTemplateSameSeparators(c, path[1..], path'[1..]);
      if path[0].Escaped? {
        UriComponent.EncodeHasNoDelimiters(path[0].raw);
        UriComponent.EncodeHasNoDelimiters(path'[0].raw);
      }
    }
  }

  /** The template of a row does not depend on the item: only the ids in it do. */
  lemma RouteTemplateFixed(resource: Resource, operation: Operation, p: ItemParams, q: ItemParams)
    requires Documented(resource, operation)
    ensures SameTemplate(RouteOf(resource, operation, p).value.path, RouteOf(resource, operation, q).value.path)
  {
  }

  /**
   * Whatever ids an item carries, the endpoint of a pair has the same number
   * of '/', '?' and '#' characters: an id cannot add path segments, a query or
   * a fragment.
   */
  lemma IdsCannotReshapeEndpoint(resource: Resource, operation: Operation, p: ItemParams, q: ItemParams, c: char)
    requires c == '/' || c == '?' || c == '#'
    ensures multiset(Prepare(resource, operation, p).endpoint)[c] == multiset(Prepare(resource, operation, q).endpoint)[c]
  {
    EndpointFollowsTable(resource, operation, p);
    EndpointFollowsTable(resource, operation, q);
    if Documented(resource, operation) {
      RouteTemplateFixed(resource, operation, p, q);
      SameTemplateSameSeparators(c, RouteOf(resource, operation, p).value.path, RouteOf(resource, operation, q).value.path);
    }
  }
}
