/** `EcwidClient` as an object (src/EcwidSync.Infrastructure/EcwidClient.cs): one mutable
    field, the authentication mode, and a server that answers each GET with the next of a
    finite sequence of answers. Every method is proved to do what the functions of
    `EcwidPaging` say, and the laws of `EcwidPagingLaws` then hold of it. */
module EcwidClient {
  import opened Wrappers
  import opened Text
  import opened Int32
  import opened EcwidJson
  import opened EcwidPaging

  /** One GET as the server received it: the URL and the bearer token of the
      `Authorization` header, if one was sent. */
  datatype Request = Request(url: string, bearer: Option<string>)

  /** The requests of the URLs `urls`, all sent with the same header. */
  function Requests(urls: seq<string>, bearer: Option<string>): seq<Request> {
    if urls == [] then [] else [Request(urls[0], bearer)] + Requests(urls[1..], bearer)
  }

  lemma {:induction false} RequestsAppend(a: seq<string>, b: seq<string>, bearer: Option<string>)
    ensures Requests(a + b, bearer) == Requests(a, bearer) + Requests(b, bearer)
  {
    if a != [] {
      assert (a + b)[1..] == a[1..] + b;
      RequestsAppend(a[1..], b, bearer);
    } else {
      assert a + b == b;
    }
  }

  /** A log that grew by the requests of `more` after holding those of `sent`. */
  lemma LogGrows(log0: seq<Request>, sent: seq<string>, more: seq<string>, bearer: Option<string>,
                 log1: seq<Request>, log2: seq<Request>)
    requires log1 == log0 + Requests(sent, bearer) && log2 == log1 + Requests(more, bearer)
    ensures log2 == log0 + Requests(sent + more, bearer)
  {
    var a, b := Requests(sent, bearer), Requests(more, bearer);
    RequestsAppend(sent, more, bearer);
    assert (log0 + a) + b == log0 + (a + b);
  }

  /** A run that continues after a prefix, glued after another prefix. */
  lemma ThenThen<T>(a: seq<T>, sa: seq<string>, b: seq<T>, sb: seq<string>, r: Run<T>)
    ensures Then(a, sa, Then(b, sb, r)) == Then(a + b, sa + sb, r)
  {
    assert (a + b) + r.items == a + (b + r.items);
    assert (sa + sb) + r.sent == sa + (sb + r.sent);
  }

  /** One turn of a raw loop, taken after the items and requests of the earlier turns. */
  lemma RawLoopAdvance<T>(queryAuth: bool, token: string, codecs: Codecs, resource: string, pageSize: int32,
                          f: Element -> Result<T, JsonFault>, offset: int32, rs: seq<Response>,
                          items: seq<T>, sent: seq<string>, spec: Run<T>, x: Exchange, s: Step<T>)
    requires Then(items, sent, RawLoop(queryAuth, token, codecs, resource, pageSize, f, offset, rs)) == spec
    requires RawTurn(queryAuth, token, codecs, resource, pageSize, f, offset, rs) == (x, s)
    ensures s.Stop? ==> Run(items + s.items, s.error, x.queryAuth, sent + x.sent, x.rest) == spec
    ensures s.Continue? ==> (|x.rest| < |rs| &&
      Then(items + s.items, sent + x.sent, RawLoop(x.queryAuth, token, codecs, resource, pageSize, f, s.next, x.rest)) == spec)
  {
    if s.Continue? {
      ThenThen(items, sent, s.items, x.sent, RawLoop(x.queryAuth, token, codecs, resource, pageSize, f, s.next, x.rest));
    }
  }

  /** One turn of the typed products loop, taken after the items and requests of the
      earlier turns. */
  lemma ProductsLoopAdvance(queryAuth: bool, token: string, codecs: Codecs, pageSize: int32, offset: int32,
                            rs: seq<Response>, items: seq<Product>, sent: seq<string>, spec: Run<Product>,
                            x: Exchange, s: Step<Product>)
    requires Then(items, sent, ProductsLoop(queryAuth, token, codecs, pageSize, offset, rs)) == spec
    requires ProductsTurn(queryAuth, token, codecs, pageSize, offset, rs) == (x, s)
    ensures s.Stop? ==> Run(items + s.items, s.error, x.queryAuth, sent + x.sent, x.rest) == spec
    ensures s.Continue? ==> (|x.rest| < |rs| &&
      Then(items + s.items, sent + x.sent, ProductsLoop(x.queryAuth, token, codecs, pageSize, s.next, x.rest)) == spec)
  {
    if s.Continue? {
      ThenThen(items, sent, s.items, x.sent, ProductsLoop(x.queryAuth, token, codecs, pageSize, s.next, x.rest));
    }
  }

  /** The Ecwid server: the answers it still has to give, in order, and the requests it
      received. A GET with no answer left is a transport failure. */
  class Server {
    var answers: seq<Response>
    var log: seq<Request>

    constructor(answers: seq<Response>)
      ensures this.answers == answers && log == []
    {
      this.answers := answers;
      log := [];
    }

    /** `HttpClient.GetAsync`: the request is logged and the next answer, if any, consumed. */
    method Get(url: string, bearer: Option<string>) returns (response: Option<Response>)
      modifies this
      ensures old(answers) == [] ==> response.None? && answers == []
      ensures old(answers) != [] ==> response == Some(old(answers)[0]) && answers == old(answers)[1..]
      ensures log == old(log) + [Request(url, bearer)]
    {
      if answers == [] {
        response := None;
      } else {
        response := Some(answers[0]);
        answers := answers[1..];
      }
      log := log + [Request(url, bearer)];
    }
  }

  /** `EcwidClient`: the bearer header is fixed at construction, the query-token fallback
      `useQueryAuth` is the only state that changes. */
  class Client {
    const server: Server
    const token: string
    const codecs: Codecs
    /** `DefaultRequestHeaders.Authorization`, sent with every request. */
    const authorization: Option<string>
    var useQueryAuth: bool

    /** Lines 34-42: bearer mode; the header is set only for a token that is not blank. */
    constructor(server: Server, token: string, codecs: Codecs)
      ensures this.server == server && this.token == token && this.codecs == codecs
      ensures authorization == if Blank(token) then None else Some(token)
      ensures !useQueryAuth
    {
      this.server := server;
      this.token := token;
      this.codecs := codecs;
      authorization := if Blank(token) then None else Some(token);
      useQueryAuth := false;
    }

    /** Lines 228-241: `GetWithAuthRetryAsync`. The mode moves to query only on a 401/403
        answer to a bearer request, which is then retried once with the token in the URL;
        every request carries the bearer header. */
    method GetWithAuthRetry(url: string) returns (response: Option<Response>)
      modifies this, server
      ensures var x := AuthGet(old(useQueryAuth), token, url, old(server.answers));
        && response == x.response && useQueryAuth == x.queryAuth && server.answers == x.rest
        && server.log == old(server.log) + Requests(x.sent, authorization)
      ensures useQueryAuth <==>
        old(useQueryAuth) || (old(server.answers) != [] && IsAuthDenied(old(server.answers)[0].status))
    {
      ghost var rs := server.answers;
      if useQueryAuth {
        response := server.Get(BuildUrl(true, token, url), authorization);
        assert AuthGet(true, token, url, rs) == Send(BuildUrl(true, token, url), rs).(queryAuth := true);
        assert Requests([BuildUrl(true, token, url)], authorization) == [Request(BuildUrl(true, token, url), authorization)];
        return;
      }
      response := server.Get(url, authorization);
      if response.Some? && IsAuthDenied(response.value.status) {
        useQueryAuth := true;
        ghost var log1 := server.log;
        var retry := BuildUrl(true, token, url);
        response := server.Get(retry, authorization);
        ghost var e := Send(retry, rs[1..]);
        assert AuthGet(false, token, url, rs) == Exchange(e.response, true, [url, retry], e.rest);
        assert server.log == old(server.log) + [Request(url, authorization), Request(retry, authorization)];
        assert [url, retry][1..] == [retry] && [retry][1..] == [];
        assert Requests([retry], authorization) == [Request(retry, authorization)];
        assert Requests([url, retry], authorization) == [Request(url, authorization), Request(retry, authorization)];
      } else {
        assert AuthGet(false, token, url, rs) == Send(url, rs);
        assert Requests([url], authorization) == [Request(url, authorization)];
      }
    }

    /** Lines 44-69: `GetProductsAsync`; the URL goes through `BuildUrl` before the
        exchange. */
    method GetProducts(offset: int32, limit: int32) returns (page: Result<(seq<Product>, int32, int32), Error>)
      modifies this, server
      ensures var (p, x) := EcwidPaging.GetProducts(old(useQueryAuth), token, codecs, offset, limit, old(server.answers));
        && page == p && useQueryAuth == x.queryAuth && server.answers == x.rest
        && server.log == old(server.log) + Requests(x.sent, authorization)
    {
      var url := BuildUrl(useQueryAuth, token, PagePath("products", offset, limit));
      var response := GetWithAuthRetry(url);
      page := ReadProductsPage(codecs, response);
    }

    /** Lines 76-86: the body of `GetAllProductsAsync`'s `while (true)`: the page at
        `offset` is fetched and the loop told to stop or to go on from the next offset. */
    method NextProductsPage(pageSize: int32, offset: int32) returns (s: Step<Product>)
      modifies this, server
      ensures var (x, s') := ProductsTurn(old(useQueryAuth), token, codecs, pageSize, offset, old(server.answers));
        && s == s' && useQueryAuth == x.queryAuth && server.answers == x.rest
        && server.log == old(server.log) + Requests(x.sent, authorization)
    {
      var page := GetProducts(offset, pageSize);
      match page
      case Err(e) =>
        s := Stop([], Some(e));
      case Ok((ps, _, total)) =>
        if |ps| == 0 {
          s := Stop([], None);
        } else {
          var next := Narrow(offset + |ps|);
          if ProductsStop(next, total, |ps|, pageSize) {
            s := Stop(ps, None);
          } else {
            s := Continue(ps, next);
          }
        }
    }

    /** One pass of `GetAllProductsAsync`, after the passes that yielded `items` and sent
        `sent` since the log read `log0`: the run still to come starts with this page. */
    method ProductsPass(pageSize: int32, offset: int32, ghost items: seq<Product>, ghost sent: seq<string>,
                        ghost log0: seq<Request>, ghost spec: Run<Product>)
      returns (s: Step<Product>, ghost x: Exchange)
      requires Then(items, sent, ProductsLoop(useQueryAuth, token, codecs, pageSize, offset, server.answers)) == spec
      requires server.log == log0 + Requests(sent, authorization)
      modifies this, server
      ensures server.log == log0 + Requests(sent + x.sent, authorization)
      ensures s.Stop? ==> Run(items + s.items, s.error, useQueryAuth, sent + x.sent, server.answers) == spec
      ensures s.Continue? ==> (|server.answers| < old(|server.answers|) &&
        Then(items + s.items, sent + x.sent, ProductsLoop(useQueryAuth, token, codecs, pageSize, s.next, server.answers)) == spec)
    {
      ghost var q, rs, log1 := useQueryAuth, server.answers, server.log;
      x := ProductsTurn(q, token, codecs, pageSize, offset, rs).0;
      s := NextProductsPage(pageSize, offset);
      LogGrows(log0, sent, x.sent, authorization, log1, server.log);
      ProductsLoopAdvance(q, token, codecs, pageSize, offset, rs, items, sent, spec, x, s);
    }

    /** Lines 71-88: `GetAllProductsAsync`, with the products it yields and the error it
        ends with, if any. */
    method GetAllProducts(pageSize: int32) returns (items: seq<Product>, error: Option<Error>)
      modifies this, server
      ensures var r := ProductsLoop(old(useQueryAuth), token, codecs, pageSize, 0, old(server.answers));
        && items == r.items && error == r.error && useQueryAuth == r.queryAuth && server.answers == r.rest
        && server.log == old(server.log) + Requests(r.sent, authorization)
    {
      ghost var spec := ProductsLoop(useQueryAuth, token, codecs, pageSize, 0, server.answers);
      ghost var log0 := server.log;
      ghost var sent: seq<string> := [];
      var offset: int32 := 0;
      items := [];
      while true
        invariant Then(items, sent, ProductsLoop(useQueryAuth, token, codecs, pageSize, offset, server.answers)) == spec
        invariant server.log == log0 + Requests(sent, authorization)
        decreases |server.answers|
      {
        var s, x := ProductsPass(pageSize, offset, items, sent, log0, spec);
        items, sent := items + s.items, sent + x.sent;
        match s
        case Stop(_, e) =>
          return items, e;
        case Continue(_, next) =>
          offset := next;
      }
    }

    /** Lines 122-136 and 165-204: the elements of one page mapped in order, each yielded
        as soon as it is mapped, until one fails. */
    method MapPage<T>(elems: seq<Element>, f: Element -> Result<T, JsonFault>) returns (ys: seq<T>, fault: Option<JsonFault>)
      ensures (ys, fault) == MapElements(elems, f)
    {
      ghost var spec := MapElements(elems, f);
      MapElementsInOrder(elems, f);
      ys, fault := [], None;
      var i := 0;
      while i < |elems|
        invariant i <= |spec.0| && ys == spec.0[..i]
        decreases |elems| - i
      {
        match f(elems[i])
        case Err(e) =>
          assert i == |spec.0|;
          assert spec.0[..i] == spec.0;
          fault := Some(e);
          return;
        case Ok(y) =>
          assert i < |spec.0| && spec.0[i] == y;
          assert spec.0[..i + 1] == spec.0[..i] + [y];
          ys := ys + [y];
        i := i + 1;
      }
      assert spec.0[..i] == spec.0;
    }

    /** Lines 113-143 and 155-211: what one answer contributes to a raw loop. */
    method ReadRawPage<T>(f: Element -> Result<T, JsonFault>, offset: int32, response: Option<Response>)
      returns (s: Step<T>)
      ensures s == RawStep(codecs, f, offset, response)
    {
      if response.None? {
        return Stop([], Some(Transport));
      }
      var resp := response.value;
      if !IsSuccess(resp.status) {
        return Stop([], Some(HttpStatus(resp.status, resp.body)));
      }
      var doc := codecs.parseDocument(resp.body);
      if doc.None? {
        return Stop([], Some(JsonError(Malformed)));
      }
      var root := doc.value;
      var items := TryGetProperty(root, "items");
      if items.Err? {
        return Stop([], Some(JsonError(items.error)));
      }
      if items.value.None? {
        return Stop([], None);
      }
      var arr := items.value.value;
      if !arr.JArray? {
        return Stop([], Some(JsonError(WrongKind)));
      }
      if arr.elems == [] {
        return Stop([], None);
      }
      var ys, fault := MapPage(arr.elems, f);
      if fault.Some? {
        return Stop(ys, Some(JsonError(fault.value)));
      }
      var ct := CountAndTotal(root, |arr.elems|);
      if ct.Err? {
        return Stop(ys, Some(JsonError(ct.error)));
      }
      var (count, total) := ct.value;
      var next := Narrow(offset + count);
      if RawStop(next, total, count) {
        s := Stop(ys, None);
      } else {
        s := Continue(ys, next);
      }
    }

    /** Lines 111-143 and 153-211: one pass of a raw loop's `while (true)`: the page at
        `offset` is requested and read. */
    method NextRawPage<T>(resource: string, pageSize: int32, f: Element -> Result<T, JsonFault>, offset: int32)
      returns (s: Step<T>)
      modifies this, server
      ensures var (x, s') := RawTurn(old(useQueryAuth), token, codecs, resource, pageSize, f, offset, old(server.answers));
        && s == s' && useQueryAuth == x.queryAuth && server.answers == x.rest
        && server.log == old(server.log) + Requests(x.sent, authorization)
    {
      var url := BuildUrl(useQueryAuth, token, PagePath(resource, offset, pageSize));
      var response := GetWithAuthRetry(url);
      s := ReadRawPage(f, offset, response);
    }

    /** One pass of a raw loop, after the passes that yielded `items` and sent `sent` since
        the log read `log0`: the run still to come starts with this page. */
    method RawPass<T>(resource: string, pageSize: int32, f: Element -> Result<T, JsonFault>, offset: int32,
                      ghost items: seq<T>, ghost sent: seq<string>, ghost log0: seq<Request>, ghost spec: Run<T>)
      returns (s: Step<T>, ghost x: Exchange)
      requires RawOnTrack(resource, pageSize, f, offset, items, sent, log0, spec)
      modifies this, server
      ensures s.Stop? ==> server.log == log0 + Requests(sent + x.sent, authorization)
      ensures s.Stop? ==> Run(items + s.items, s.error, useQueryAuth, sent + x.sent, server.answers) == spec
      ensures s.Continue? ==> |server.answers| < old(|server.answers|)
      ensures s.Continue? ==> RawOnTrack(resource, pageSize, f, s.next, items + s.items, sent + x.sent, log0, spec)
    {
      ghost var q, rs, log1 := useQueryAuth, server.answers, server.log;
      x := RawTurn(q, token, codecs, resource, pageSize, f, offset, rs).0;
      s := NextRawPage(resource, pageSize, f, offset);
      LogGrows(log0, sent, x.sent, authorization, log1, server.log);
      RawLoopAdvance(q, token, codecs, resource, pageSize, f, offset, rs, items, sent, spec, x, s);
    }

    /** A raw loop over `resource` at `offset`, after the passes that yielded `items` and sent
        `sent` since the log read `log0`: the run still to come completes `spec`. */
    ghost predicate RawOnTrack<T>(resource: string, pageSize: int32, f: Element -> Result<T, JsonFault>, offset: int32,
                                  items: seq<T>, sent: seq<string>, log0: seq<Request>, spec: Run<T>)
      reads this, server
    {
      && Then(items, sent, RawLoop(useQueryAuth, token, codecs, resource, pageSize, f, offset, server.answers)) == spec
      && server.log == log0 + Requests(sent, authorization)
    }

    /** Lines 106-145 and 147-213: a raw loop over `resource`, with the pairs it yields and
        the error it ends with, if any. */
    method GetAllRaw<T>(resource: string, pageSize: int32, f: Element -> Result<T, JsonFault>)
      returns (items: seq<T>, error: Option<Error>)
      modifies this, server
      ensures var r := RawLoop(old(useQueryAuth), token, codecs, resource, pageSize, f, 0, old(server.answers));
        && items == r.items && error == r.error && useQueryAuth == r.queryAuth && server.answers == r.rest
        && server.log == old(server.log) + Requests(r.sent, authorization)
    {
      ghost var spec := RawLoop(useQueryAuth, token, codecs, resource, pageSize, f, 0, server.answers);
      ghost var log0 := server.log;
      ghost var sent: seq<string> := [];
      var offset: int32 := 0;
      items := [];
      while true
        invariant RawOnTrack(resource, pageSize, f, offset, items, sent, log0, spec)
        decreases |server.answers|
      {
        var s, x := RawPass(resource, pageSize, f, offset, items, sent, log0, spec);
        items, sent := items + s.items, sent + x.sent;
        match s
        case Stop(_, e) =>
          return items, e;
        case Continue(_, next) =>
          offset := next;
      }
    }

    /** Lines 106-145: `GetAllProductsWithRawAsync`. */
    method GetAllProductsWithRaw(pageSize: int32) returns (items: seq<(Product, string)>, error: Option<Error>)
      modifies this, server
      ensures var r := RawLoop(old(useQueryAuth), token, codecs, "products", pageSize, RawProduct(codecs), 0, old(server.answers));
        && items == r.items && error == r.error && useQueryAuth == r.queryAuth && server.answers == r.rest
        && server.log == old(server.log) + Requests(r.sent, authorization)
    {
      items, error := GetAllRaw("products", pageSize, RawProduct(codecs));
    }

    /** Lines 147-213: `GetAllCategoriesWithRawAsync`. */
    method GetAllCategoriesWithRaw(pageSize: int32) returns (items: seq<(Category, string)>, error: Option<Error>)
      modifies this, server
      ensures var r := RawLoop(old(useQueryAuth), token, codecs, "categories", pageSize, RawCategory(codecs), 0, old(server.answers));
        && items == r.items && error == r.error && useQueryAuth == r.queryAuth && server.answers == r.rest
        && server.log == old(server.log) + Requests(r.sent, authorization)
    {
      items, error := GetAllRaw("categories", pageSize, RawCategory(codecs));
    }
  }
}
