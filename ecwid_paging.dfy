/** What `EcwidClient` does against a server, stated as functions of the client's
    authentication mode and the server's remaining answers
    (src/EcwidSync.Infrastructure/EcwidClient.cs). The class in `EcwidClient` is proved to
    behave as these functions say. */
module EcwidPaging {
  import opened Wrappers
  import opened Text
  import opened Int32
  import opened EcwidJson

  /** The errors a fetch ends with: the transport failed, the server answered with a
      non-success status (status code and body), or the JSON could not be read. */
  datatype Error = Transport | HttpStatus(code: int, body: string) | JsonError(fault: JsonFault)

  /** An HTTP answer: its status code and its body text. */
  datatype Response = Response(status: int, body: string)

  /** `IsSuccessStatusCode`. */
  predicate IsSuccess(status: int) {
    200 <= status <= 299
  }

  /** 401 Unauthorized or 403 Forbidden (sections 15.5.2 and 15.5.4 of RFC 9110). */
  predicate IsAuthDenied(status: int) {
    status == 401 || status == 403
  }

  /** An Ecwid product as the client maps it (`EcwidSync.Domain.Product`). */
  datatype Product = Product(
    id: int64,
    sku: Option<string>,
    name: string,
    price: Option<real>,
    quantity: Option<int32>,
    enabled: bool,
    updated: Option<Instant>)

  /** `EcwidProductDto`, as the JSON serializer fills it. */
  datatype ProductDto = ProductDto(
    id: int64,
    sku: Option<string>,
    name: string,
    price: Option<real>,
    quantity: Option<int32>,
    enabled: bool,
    updated: Option<string>)

  /** `EcwidProductsResponse`: the typed page; absent `count` and `total` read as 0. */
  datatype ProductsPayload = ProductsPayload(items: seq<ProductDto>, count: int32, total: int32)

  /** The library code the client calls and this model does not open: `JsonDocument.Parse`
      (`None` for text that is not JSON), the typed deserialization of a page and of one
      product (a JSON `null` already replaced by the empty object), and the date parsers. */
  datatype Codecs = Codecs(
    parseDocument: string -> Option<Json>,
    readPayload: string -> Result<ProductsPayload, JsonFault>,
    readProduct: string -> Result<ProductDto, JsonFault>,
    dateTimeOffset: string -> Option<Instant>,
    dates: DateParsers)

  /** Lines 57-66 and 127-136: a product from its DTO; an unparsable or absent date is null. */
  function ProductOfDto(dto: ProductDto, parseOffset: string -> Option<Instant>): (p: Product)
    ensures p.id == dto.id && p.sku == dto.sku && p.name == dto.name
    ensures p.price == dto.price && p.quantity == dto.quantity && p.enabled == dto.enabled
    ensures dto.updated.None? ==> p.updated.None?
  {
    Product(dto.id, dto.sku, dto.name, dto.price, dto.quantity, dto.enabled,
            if dto.updated.Some? then parseOffset(dto.updated.value) else None)
  }

  /** Line 57: every DTO of a page mapped, in order. */
  function ProductsOf(dtos: seq<ProductDto>, parseOffset: string -> Option<Instant>): (ps: seq<Product>)
    ensures |ps| == |dtos|
    ensures forall i :: 0 <= i < |dtos| ==> ps[i] == ProductOfDto(dtos[i], parseOffset)
  {
    if dtos == [] then [] else [ProductOfDto(dtos[0], parseOffset)] + ProductsOf(dtos[1..], parseOffset)
  }

  // ---------- the URL and the authentication exchange ----------

  /** Lines 217-226: in query mode the token is appended as the `token` query parameter,
      after `&` when the URL already has a query and after `?` otherwise. */
  function BuildUrl(queryAuth: bool, token: string, pathAndQuery: string): (url: string)
    ensures !queryAuth ==> url == pathAndQuery
    ensures queryAuth ==>
      && IsPrefix(pathAndQuery, url)
      && url[|pathAndQuery|..] == [if '?' in pathAndQuery then '&' else '?'] + "token=" + token
  {
    if queryAuth then
      if '?' in pathAndQuery then pathAndQuery + "&token=" + token
      else pathAndQuery + "?token=" + token
    else pathAndQuery
  }

  /** The outcome of one call of `GetWithAuthRetryAsync`: the answer (`None` when the
      transport failed), the authentication mode afterwards, the URLs sent and the answers
      still to come. */
  datatype Exchange = Exchange(response: Option<Response>, queryAuth: bool, sent: seq<string>, rest: seq<Response>)

  /** One GET: consumes the next answer, if there is one. */
  function Send(url: string, rs: seq<Response>): Exchange {
    if rs == [] then Exchange(None, false, [url], [])
    else Exchange(Some(rs[0]), false, [url], rs[1..])
  }

  /** Lines 228-241. In query mode the URL goes through `BuildUrl` once more; in bearer mode a
      401/403 switches to query mode and retries once. */
  function AuthGet(queryAuth: bool, token: string, url: string, rs: seq<Response>): Exchange
  {
    if queryAuth then
      var e := Send(BuildUrl(true, token, url), rs);
      e.(queryAuth := true)
    else if rs != [] && IsAuthDenied(rs[0].status) then
      var e := Send(BuildUrl(true, token, url), rs[1..]);
      Exchange(e.response, true, [url] + e.sent, e.rest)
    else
      Send(url, rs)
  }

  /** The exchange of lines 228-241: the mode becomes query exactly when it was query or the
      first answer is a 401/403; a bearer denial costs one retry, with the token in the URL,
      and nothing else is retried; each request consumes one answer, and a transport failure
      is the request that found no answer left. */
  lemma AuthGetLaws(queryAuth: bool, token: string, url: string, rs: seq<Response>)
    ensures var x := AuthGet(queryAuth, token, url, rs);
      && (x.queryAuth <==> queryAuth || (rs != [] && IsAuthDenied(rs[0].status)))
      && |x.sent| == (if !queryAuth && rs != [] && IsAuthDenied(rs[0].status) then 2 else 1)
      && x.sent[0] == (if queryAuth then BuildUrl(true, token, url) else url)
      && (|x.sent| == 2 ==> x.sent[1] == BuildUrl(true, token, url))
      && |x.rest| <= |rs| && x.rest == rs[|rs| - |x.rest|..]
      && (x.response.Some? <==> |rs| >= |x.sent|)
      && (x.response.Some? ==> |x.rest| == |rs| - |x.sent| && x.response.value == rs[|x.sent| - 1])
      && (x.response.None? ==> x.rest == [] && |rs| == |x.sent| - 1)
      && (x.response.Some? && !queryAuth && |x.sent| == 1 ==> !IsAuthDenied(x.response.value.status))
  {
  }

  /** The relative URL of one page. */
  function PagePath(resource: string, offset: int32, limit: int32): string {
    resource + "?offset=" + IntToString(offset) + "&limit=" + IntToString(limit)
  }

  /** A paging run: what was yielded, the error it ended with (if any), the authentication
      mode at the end, the URLs sent and the answers left unread. */
  datatype Run<T> = Run(items: seq<T>, error: Option<Error>, queryAuth: bool, sent: seq<string>, rest: seq<Response>)

  /** A run that first yielded `items` and sent `sent`, then went on as `r`. */
  function Then<T>(items: seq<T>, sent: seq<string>, r: Run<T>): Run<T> {
    Run(items + r.items, r.error, r.queryAuth, sent + r.sent, r.rest)
  }

  // ---------- GetProductsAsync and GetAllProductsAsync (lines 44-88) ----------

  /** What one page contributes to a run: it stops the run (with what it yielded and the
      error, if any) or lets it go on from the next offset. */
  datatype Step<T> = Stop(items: seq<T>, error: Option<Error>) | Continue(items: seq<T>, next: int32)

  /** A step reports the transport failure exactly when no answer came, and a status error
      only for a non-success answer, with its status and body. */
  ghost predicate Reports<T>(s: Step<T>, response: Option<Response>) {
    && (s.Continue? ==> response.Some?)
    && (s.Stop? && s.error == Some(Transport) <==> response.None?)
    && (s.Stop? && s.error.Some? && s.error.value.HttpStatus? ==>
          response.Some? && s.error.value == HttpStatus(response.value.status, response.value.body)
          && !IsSuccess(response.value.status))
  }

  /** Lines 49-68: the typed page `(products, count, total)` read from an answer. */
  function ReadProductsPage(codecs: Codecs, response: Option<Response>): (r: Result<(seq<Product>, int32, int32), Error>)
    ensures r == Err(Transport) <==> response.None?
    ensures r.Err? && r.error.HttpStatus? ==>
      response.Some? && r.error == HttpStatus(response.value.status, response.value.body)
      && !IsSuccess(response.value.status)
  {
    if response.None? then Err(Transport)
    else
      var resp := response.value;
      if !IsSuccess(resp.status) then Err(HttpStatus(resp.status, resp.body))
      else
        match codecs.readPayload(resp.body)
        case Err(e) => Err(JsonError(e))
        case Ok(p) => Ok((ProductsOf(p.items, codecs.dateTimeOffset), p.count, p.total))
  }

  /** Lines 44-69: `GetProductsAsync`, with the exchange behind it. */
  function GetProducts(queryAuth: bool, token: string, codecs: Codecs, offset: int32, limit: int32,
                       rs: seq<Response>): (Result<(seq<Product>, int32, int32), Error>, Exchange)
  {
    var x := AuthGet(queryAuth, token, BuildUrl(queryAuth, token, PagePath("products", offset, limit)), rs);
    (ReadProductsPage(codecs, x.response), x)
  }

  /** Line 85: the typed loop stops once `offset` reaches a positive `total` or a page is short. */
  predicate ProductsStop(offset: int32, total: int32, n: nat, pageSize: int32) {
    (total > 0 && offset >= total) || n < pageSize
  }

  /** Lines 76-86: one turn of `GetAllProductsAsync`. */
  function ProductsStep(codecs: Codecs, pageSize: int32, offset: int32, response: Option<Response>): (s: Step<Product>)
    ensures Reports(s, response)
  {
    match ReadProductsPage(codecs, response)
    case Err(e) => Stop([], Some(e))
    case Ok((items, _, total)) =>
      if |items| == 0 then Stop([], None)
      else
        var next := Narrow(offset + |items|);
        if ProductsStop(next, total, |items|, pageSize) then Stop(items, None)
        else Continue(items, next)
  }

  /** One request of `GetAllProductsAsync` and what its page contributes. */
  function ProductsTurn(queryAuth: bool, token: string, codecs: Codecs, pageSize: int32, offset: int32,
                        rs: seq<Response>): (t: (Exchange, Step<Product>))
    ensures t.1.Continue? ==> |t.0.rest| < |rs|
  {
    var x := AuthGet(queryAuth, token, BuildUrl(queryAuth, token, PagePath("products", offset, pageSize)), rs);
    (x, ProductsStep(codecs, pageSize, offset, x.response))
  }

  /** Lines 71-88: `GetAllProductsAsync` from `offset` on. */
  function ProductsLoop(queryAuth: bool, token: string, codecs: Codecs, pageSize: int32,
                        offset: int32, rs: seq<Response>): (r: Run<Product>)
    decreases |rs|
  {
    var (x, s) := ProductsTurn(queryAuth, token, codecs, pageSize, offset, rs);
    match s
    case Stop(items, e) => Run(items, e, x.queryAuth, x.sent, x.rest)
    case Continue(items, next) => Then(items, x.sent, ProductsLoop(x.queryAuth, token, codecs, pageSize, next, x.rest))
  }

  // ---------- the raw loops (lines 106-213) ----------

  /** Maps the elements of one page in order, stopping at the first one that fails. */
  function MapElements<T>(elems: seq<Element>, f: Element -> Result<T, JsonFault>): (r: (seq<T>, Option<JsonFault>))
    ensures |r.0| <= |elems|
    ensures r.1.None? ==> |r.0| == |elems|
    ensures r.1.Some? ==> |r.0| < |elems| && f(elems[|r.0|]) == Err(r.1.value)
  {
    if elems == [] then ([], None)
    else
      match f(elems[0])
      case Err(e) => ([], Some(e))
      case Ok(y) =>
        var (ys, e) := MapElements(elems[1..], f);
        ([y] + ys, e)
  }

  /** Every element yielded is the mapping of the element at its position: the page is
      mapped in order, up to the first failure. */
  lemma {:induction false} MapElementsInOrder<T>(elems: seq<Element>, f: Element -> Result<T, JsonFault>)
    ensures var r := MapElements(elems, f);
      forall i :: 0 <= i < |r.0| ==> f(elems[i]) == Ok(r.0[i])
  {
    if elems != [] && f(elems[0]).Ok? {
      var r := MapElements(elems, f);
      var t := MapElements(elems[1..], f);
      MapElementsInOrder(elems[1..], f);
      assert r.0 == [f(elems[0]).value] + t.0;
      forall i | 1 <= i < |r.0| ensures f(elems[i]) == Ok(r.0[i]) {
        assert elems[i] == elems[1..][i - 1] && r.0[i] == t.0[i - 1];
      }
    }
  }

  /** Lines 140-141 and 207-208: `count` (the array length when absent) and `total`
      (0 when absent). */
  function CountAndTotal(root: Json, n: nat): Result<(int32, int32), JsonFault>
    requires root.JObject?
  {
    var count := if "count" in root.props then GetInt32(root.props["count"]) else Ok(Narrow(n));
    var total := if "total" in root.props then GetInt32(root.props["total"]) else Ok(0);
    if count.Err? then Err(count.error)
    else if total.Err? then Err(total.error)
    else Ok((count.value, total.value))
  }

  /** Lines 143 and 211: the raw loops stop once `offset` reaches a positive `total` or the
      reported `count` is 0. */
  predicate RawStop(offset: int32, total: int32, count: int32) {
    (total > 0 && offset >= total) || count == 0
  }

  /** Lines 112-143 and 154-211: one turn of a raw loop. */
  function RawStep<T>(codecs: Codecs, f: Element -> Result<T, JsonFault>, offset: int32,
                      response: Option<Response>): (s: Step<T>)
    ensures Reports(s, response)
  {
    if response.None? then Stop([], Some(Transport))
    else
      var resp := response.value;
      if !IsSuccess(resp.status) then Stop([], Some(HttpStatus(resp.status, resp.body)))
      else
        match codecs.parseDocument(resp.body)
        case None => Stop([], Some(JsonError(Malformed)))
        case Some(root) =>
          match TryGetProperty(root, "items")
          case Err(e) => Stop([], Some(JsonError(e)))
          case Ok(None) => Stop([], None)
          case Ok(Some(items)) =>
            if !items.JArray? then Stop([], Some(JsonError(WrongKind)))
            else if items.elems == [] then Stop([], None)
            else
              var (ys, e) := MapElements(items.elems, f);
              if e.Some? then Stop(ys, Some(JsonError(e.value)))
              else
                match CountAndTotal(root, |items.elems|)
                case Err(e) => Stop(ys, Some(JsonError(e)))
                case Ok((count, total)) =>
                  var next := Narrow(offset + count);
                  if RawStop(next, total, count) then Stop(ys, None)
                  else Continue(ys, next)
  }

  /** One request of a raw loop and what its page contributes. */
  function RawTurn<T>(queryAuth: bool, token: string, codecs: Codecs, resource: string, pageSize: int32,
                      f: Element -> Result<T, JsonFault>, offset: int32, rs: seq<Response>): (t: (Exchange, Step<T>))
    ensures t.1.Continue? ==> |t.0.rest| < |rs|
  {
    var x := AuthGet(queryAuth, token, BuildUrl(queryAuth, token, PagePath(resource, offset, pageSize)), rs);
    (x, RawStep(codecs, f, offset, x.response))
  }

  /** Lines 106-145 and 147-213: a raw loop from `offset` on, mapping each element with `f`. */
  function RawLoop<T>(queryAuth: bool, token: string, codecs: Codecs, resource: string, pageSize: int32,
                      f: Element -> Result<T, JsonFault>, offset: int32, rs: seq<Response>): (r: Run<T>)
    decreases |rs|
  {
    var (x, s) := RawTurn(queryAuth, token, codecs, resource, pageSize, f, offset, rs);
    match s
    case Stop(ys, e) => Run(ys, e, x.queryAuth, x.sent, x.rest)
    case Continue(ys, next) => Then(ys, x.sent, RawLoop(x.queryAuth, token, codecs, resource, pageSize, f, next, x.rest))
  }

  /** Lines 122-137: a product element, paired with its own raw text. */
  function RawProduct(codecs: Codecs): Element -> Result<(Product, string), JsonFault> {
    (el: Element) =>
      match codecs.readProduct(el.raw)
      case Err(e) => Err(e)
      case Ok(dto) => Ok((ProductOfDto(dto, codecs.dateTimeOffset), el.raw))
  }

  /** Lines 165-204: a category element, paired with its own raw text. */
  function RawCategory(codecs: Codecs): Element -> Result<(Category, string), JsonFault> {
    (el: Element) =>
      match MapCategory(el.value, codecs.dates)
      case Err(e) => Err(e)
      case Ok(c) => Ok((c, el.raw))
  }
}
