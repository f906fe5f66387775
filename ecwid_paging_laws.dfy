/** Properties of the paging runs of `EcwidClient`: the authentication mode only moves from
    bearer to query token and only on a 401/403, every request after the switch carries the
    token, each request consumes one answer, a status error reports the answer that caused it,
    and the stop rules of `GetAllProductsAsync` and of the raw loops. */
module EcwidPagingLaws {
  import opened Wrappers
  import opened Text
  import opened Int32
  import opened EcwidJson
  import opened EcwidPaging
  import opened Chunking

  /** Some answer among the first `n` is a 401 or a 403. */
  ghost predicate DeniedWithin(rs: seq<Response>, n: nat) {
    exists i :: 0 <= i < n && i < |rs| && IsAuthDenied(rs[i].status)
  }

  /** `url` ends with the query parameter `token=<token>`. */
  predicate CarriesToken(url: string, token: string) {
    var t := "token=" + token;
    |t| <= |url| && url[|url| - |t|..] == t
  }

  /** The run read a prefix of the answers; `Consumed` is its length. */
  ghost predicate ReadsPrefix<T>(rs: seq<Response>, r: Run<T>) {
    |r.rest| <= |rs| && r.rest == rs[|rs| - |r.rest|..]
  }

  function Consumed<T>(rs: seq<Response>, r: Run<T>): int {
    |rs| - |r.rest|
  }

  /** What every run of the client obeys:
      - it reads a prefix of the answers;
      - every request but a last one that met no answer consumed exactly one answer;
      - query mode is never left, and bearer mode is left exactly when a 401/403 was read;
      - every URL sent in query mode carries the token: all of them when the run starts in
        query mode, and otherwise every one sent after an answer that was a 401/403;
      - a status error carries the last answer read, and that answer was not a success. */
  ghost predicate RunLaws<T>(queryAuth: bool, token: string, rs: seq<Response>, r: Run<T>) {
    && ReadsPrefix(rs, r)
    && |r.sent| == Consumed(rs, r) + (if r.error == Some(Transport) then 1 else 0)
    && (queryAuth ==> r.queryAuth)
    && (!queryAuth ==> (r.queryAuth <==> DeniedWithin(rs, Consumed(rs, r))))
    && (forall i :: 0 <= i < |r.sent| && (queryAuth || DeniedWithin(rs, i)) ==> CarriesToken(r.sent[i], token))
    && (r.error.Some? && r.error.value.HttpStatus? ==>
          Consumed(rs, r) >= 1 && rs[Consumed(rs, r) - 1] == Response(r.error.value.code, r.error.value.body)
          && !IsSuccess(r.error.value.code))
  }

  lemma BuildUrlCarriesToken(token: string, path: string)
    ensures CarriesToken(BuildUrl(true, token, path), token)
  {
    var u := BuildUrl(true, token, path);
    var t := "token=" + token;
    assert u[|u| - |t|..] == u[|path|..][1..];
  }

  /** A run that ends with the page of exchange `x`. */
  lemma ExchangeLaws<T>(queryAuth: bool, token: string, url: string, rs: seq<Response>, s: Step<T>)
    requires s.Stop? && Reports(s, AuthGet(queryAuth, token, url, rs).response)
    ensures var x := AuthGet(queryAuth, token, url, rs);
      RunLaws(queryAuth, token, rs, Run(s.items, s.error, x.queryAuth, x.sent, x.rest))
  {
    var x := AuthGet(queryAuth, token, url, rs);
    var n := |rs| - |x.rest|;
    if queryAuth {
      BuildUrlCarriesToken(token, url);
    } else {
      if x.queryAuth {
        assert DeniedWithin(rs, n) by {
          assert x.response.Some? ==> n == |x.sent| == 2;
          assert 0 < n;
        }
        BuildUrlCarriesToken(token, url);
        assert x.sent[1] == BuildUrl(true, token, url);
      } else {
        assert !DeniedWithin(rs, n) by {
          assert n <= 1;
          assert rs != [] ==> !IsAuthDenied(rs[0].status);
        }
      }
    }
  }

  lemma DeniedSplit(rs: seq<Response>, a: nat, b: nat)
    requires a <= |rs|
    ensures DeniedWithin(rs, a + b) <==> DeniedWithin(rs, a) || DeniedWithin(rs[a..], b)
  {
    if DeniedWithin(rs[a..], b) {
      var i :| 0 <= i < b && i < |rs[a..]| && IsAuthDenied(rs[a..][i].status);
      assert rs[a + i] == rs[a..][i];
    }
    if DeniedWithin(rs, a + b) && !DeniedWithin(rs, a) {
      var i :| 0 <= i < a + b && i < |rs| && IsAuthDenied(rs[i].status);
      assert rs[a..][i - a] == rs[i];
    }
  }

  /** Gluing a run `r` after a run `h` that ended without error keeps the laws. */
  lemma ComposeLaws<T>(queryAuth: bool, token: string, rs: seq<Response>, h: Run<T>, items: seq<T>, r: Run<T>)
    requires h.error.None? && RunLaws(queryAuth, token, rs, h)
    requires RunLaws(h.queryAuth, token, h.rest, r)
    ensures RunLaws(queryAuth, token, rs, Then(items, h.sent, r))
  {
    var g := Then(items, h.sent, r);
    var a := |rs| - |h.rest|;
    var b := |h.rest| - |r.rest|;
    assert h.rest == rs[a..];
    assert ReadsPrefix(rs, g) by {
      assert rs[a..][b..] == rs[a + b..];
    }
    assert Consumed(rs, g) == a + b;
    if !queryAuth {
      DeniedSplit(rs, a, b);
    }
    ComposeTokens(queryAuth, token, rs, h, items, r);
    if r.error.Some? && r.error.value.HttpStatus? {
      assert rs[a + b - 1] == h.rest[b - 1];
    }
  }

  /** The token law of a run glued after a run that ended without error. */
  lemma ComposeTokens<T>(queryAuth: bool, token: string, rs: seq<Response>, h: Run<T>, items: seq<T>, r: Run<T>)
    requires h.error.None? && RunLaws(queryAuth, token, rs, h)
    requires RunLaws(h.queryAuth, token, h.rest, r)
    ensures var g := Then(items, h.sent, r);
      forall i :: 0 <= i < |g.sent| && (queryAuth || DeniedWithin(rs, i)) ==> CarriesToken(g.sent[i], token)
  {
    var g := Then(items, h.sent, r);
    var a := |rs| - |h.rest|;
    assert h.rest == rs[a..] && |h.sent| == a;
    forall i | 0 <= i < |g.sent| && (queryAuth || DeniedWithin(rs, i))
      ensures CarriesToken(g.sent[i], token)
    {
      if i >= a {
        assert g.sent[i] == r.sent[i - a];
        if !queryAuth {
          DeniedSplit(rs, a, i - a);
        }
      }
    }
  }

  /** Gluing a run `r` after an answered exchange keeps the laws. */
  lemma ThenLaws<T>(queryAuth: bool, token: string, url: string, rs: seq<Response>, items: seq<T>, r: Run<T>)
    requires AuthGet(queryAuth, token, url, rs).response.Some?
    requires var x := AuthGet(queryAuth, token, url, rs);
      RunLaws(x.queryAuth, token, x.rest, r)
    ensures var x := AuthGet(queryAuth, token, url, rs);
      RunLaws(queryAuth, token, rs, Then(items, x.sent, r))
  {
    var x := AuthGet(queryAuth, token, url, rs);
    ExchangeLaws(queryAuth, token, url, rs, Step<T>.Stop([], None));
    ComposeLaws(queryAuth, token, rs, Run([], None, x.queryAuth, x.sent, x.rest), items, r);
  }

  /** Every raw paging run obeys `RunLaws`. */
  lemma {:induction false} RawLoopLaws<T>(queryAuth: bool, token: string, codecs: Codecs, resource: string,
                                          pageSize: int32, f: Element -> Result<T, JsonFault>,
                                          offset: int32, rs: seq<Response>)
    ensures RunLaws(queryAuth, token, rs, RawLoop(queryAuth, token, codecs, resource, pageSize, f, offset, rs))
    decreases |rs|
  {
    var url := BuildUrl(queryAuth, token, PagePath(resource, offset, pageSize));
    var x := AuthGet(queryAuth, token, url, rs);
    var s := RawStep(codecs, f, offset, x.response);
    assert RawTurn(queryAuth, token, codecs, resource, pageSize, f, offset, rs) == (x, s);
    if s.Stop? {
      ExchangeLaws(queryAuth, token, url, rs, s);
    } else {
      RawLoopLaws(x.queryAuth, token, codecs, resource, pageSize, f, s.next, x.rest);
      ThenLaws(queryAuth, token, url, rs, s.items,
               RawLoop(x.queryAuth, token, codecs, resource, pageSize, f, s.next, x.rest));
    }
  }

  /** Every `GetAllProductsAsync` run obeys `RunLaws`. */
  lemma {:induction false} ProductsLoopLaws(queryAuth: bool, token: string, codecs: Codecs, pageSize: int32,
                                            offset: int32, rs: seq<Response>)
    ensures RunLaws(queryAuth, token, rs, ProductsLoop(queryAuth, token, codecs, pageSize, offset, rs))
    decreases |rs|
  {
    var url := BuildUrl(queryAuth, token, PagePath("products", offset, pageSize));
    var x := AuthGet(queryAuth, token, url, rs);
    var s := ProductsStep(codecs, pageSize, offset, x.response);
    assert ProductsTurn(queryAuth, token, codecs, pageSize, offset, rs) == (x, s);
    if s.Stop? {
      ExchangeLaws(queryAuth, token, url, rs, s);
    } else {
      ProductsLoopLaws(x.queryAuth, token, codecs, pageSize, s.next, x.rest);
      ThenLaws(queryAuth, token, url, rs, s.items, ProductsLoop(x.queryAuth, token, codecs, pageSize, s.next, x.rest));
    }
  }

  /** After the switch to query mode the page URL already carries the token, and
      `GetWithAuthRetryAsync` appends it once more: the request goes out with it twice. */
  lemma QueryModeSendsTokenTwice(token: string, path: string, rs: seq<Response>)
    ensures AuthGet(true, token, BuildUrl(true, token, path), rs).sent ==
      [path + [if '?' in path then '&' else '?'] + "token=" + token + "&token=" + token]
  {
    var once := BuildUrl(true, token, path);
    assert once == path + [if '?' in path then '&' else '?'] + "token=" + token;
    assert once[|path|] in once;
  }

  // ---------- the stop rules of GetAllProductsAsync ----------

  /** The products of a sequence of pages, page after page. */
  function AllProducts(pages: seq<ProductsPayload>, parseOffset: string -> Option<Instant>): seq<Product> {
    if pages == [] then [] else ProductsOf(pages[0].items, parseOffset) + AllProducts(pages[1..], parseOffset)
  }

  /** The answers are successful pages, read as `pages`. */
  ghost predicate AnswersArePages(codecs: Codecs, rs: seq<Response>, pages: seq<ProductsPayload>) {
    |rs| == |pages| && forall i :: 0 <= i < |rs| ==>
      IsSuccess(rs[i].status) && codecs.readPayload(rs[i].body) == Ok(pages[i])
  }

  lemma AnswersArePagesTail(codecs: Codecs, rs: seq<Response>, pages: seq<ProductsPayload>)
    requires |rs| >= 1 && AnswersArePages(codecs, rs, pages)
    ensures AnswersArePages(codecs, rs[1..], pages[1..])
  {
    forall i | 0 <= i < |rs| - 1
      ensures IsSuccess(rs[1..][i].status) && codecs.readPayload(rs[1..][i].body) == Ok(pages[1..][i])
    {
      assert rs[1..][i] == rs[i + 1] && pages[1..][i] == pages[i + 1];
    }
  }

  /** One turn of the typed loop on a successful answer, in either mode. */
  lemma ProductsLoopUnfold(queryAuth: bool, token: string, codecs: Codecs, pageSize: int32, offset: int32,
                           rs: seq<Response>)
    requires rs != [] && IsSuccess(rs[0].status)
    ensures var r := ProductsLoop(queryAuth, token, codecs, pageSize, offset, rs);
      var s := ProductsStep(codecs, pageSize, offset, Some(rs[0]));
      && (s.Stop? ==> r.items == s.items && r.error == s.error && r.rest == rs[1..])
      && (s.Continue? ==>
            var r' := ProductsLoop(queryAuth, token, codecs, pageSize, s.next, rs[1..]);
            r.items == s.items + r'.items && r.error == r'.error && r.rest == r'.rest)
  {
    var x := AuthGet(queryAuth, token, BuildUrl(queryAuth, token, PagePath("products", offset, pageSize)), rs);
    assert x.response == Some(rs[0]) && x.rest == rs[1..] && x.queryAuth == queryAuth;
    assert ProductsTurn(queryAuth, token, codecs, pageSize, offset, rs) ==
      (x, ProductsStep(codecs, pageSize, offset, Some(rs[0])));
  }

  /** One turn of the typed loop on a page read as `p`. */
  lemma ProductsStepOfPage(codecs: Codecs, pageSize: int32, offset: int32, resp: Response, p: ProductsPayload)
    requires IsSuccess(resp.status) && codecs.readPayload(resp.body) == Ok(p)
    ensures var items := ProductsOf(p.items, codecs.dateTimeOffset);
      var next := Narrow(offset + |items|);
      ProductsStep(codecs, pageSize, offset, Some(resp)) ==
        if |items| == 0 then Stop([], None)
        else if ProductsStop(next, p.total, |items|, pageSize) then Stop(items, None)
        else Continue(items, next)
  {
  }

  /** A successful page that does not end the run: its items come first, then the rest of
      the run from the advanced offset. */
  lemma ProductsLoopContinues(queryAuth: bool, token: string, codecs: Codecs, pageSize: int32, offset: int32,
                              rs: seq<Response>, p: ProductsPayload, next: int32)
    requires rs != [] && IsSuccess(rs[0].status) && codecs.readPayload(rs[0].body) == Ok(p)
    requires 0 < |p.items| && next == Narrow(offset + |p.items|)
    requires !ProductsStop(next, p.total, |p.items|, pageSize)
    ensures var r := ProductsLoop(queryAuth, token, codecs, pageSize, offset, rs);
      var r' := ProductsLoop(queryAuth, token, codecs, pageSize, next, rs[1..]);
      r.items == ProductsOf(p.items, codecs.dateTimeOffset) + r'.items && r.error == r'.error && r.rest == r'.rest
  {
    ProductsStepContinues(codecs, pageSize, offset, rs[0], p, next);
    ProductsLoopUnfold(queryAuth, token, codecs, pageSize, offset, rs);
  }

  lemma ProductsStepContinues(codecs: Codecs, pageSize: int32, offset: int32, resp: Response,
                              p: ProductsPayload, next: int32)
    requires IsSuccess(resp.status) && codecs.readPayload(resp.body) == Ok(p)
    requires 0 < |p.items| && next == Narrow(offset + |p.items|)
    requires !ProductsStop(next, p.total, |p.items|, pageSize)
    ensures ProductsStep(codecs, pageSize, offset, Some(resp)) == Continue(ProductsOf(p.items, codecs.dateTimeOffset), next)
  {
  }

  lemma ProductsStepStops(codecs: Codecs, pageSize: int32, offset: int32, resp: Response, p: ProductsPayload)
    requires IsSuccess(resp.status) && codecs.readPayload(resp.body) == Ok(p)
    requires 0 < |p.items| && ProductsStop(Narrow(offset + |p.items|), p.total, |p.items|, pageSize)
    ensures ProductsStep(codecs, pageSize, offset, Some(resp)) == Stop(ProductsOf(p.items, codecs.dateTimeOffset), None)
  {
  }

  /** A successful, non-empty page that ends the run: its items are the whole run. */
  lemma ProductsLoopStops(queryAuth: bool, token: string, codecs: Codecs, pageSize: int32, offset: int32,
                          rs: seq<Response>, p: ProductsPayload)
    requires rs != [] && IsSuccess(rs[0].status) && codecs.readPayload(rs[0].body) == Ok(p)
    requires 0 < |p.items| && ProductsStop(Narrow(offset + |p.items|), p.total, |p.items|, pageSize)
    ensures var r := ProductsLoop(queryAuth, token, codecs, pageSize, offset, rs);
      r.items == ProductsOf(p.items, codecs.dateTimeOffset) && r.error.None? && r.rest == rs[1..]
  {
    ProductsStepStops(codecs, pageSize, offset, rs[0], p);
    ProductsLoopUnfold(queryAuth, token, codecs, pageSize, offset, rs);
  }

  /** With no positive `total`, full pages followed by one short page are read to the end:
      the run yields every page's items in order and stops without error, whatever the
      authentication mode. */
  lemma {:induction false} ProductsLoopShortLastPage(queryAuth: bool, token: string, codecs: Codecs,
      pageSize: int32, offset: int32, rs: seq<Response>, pages: seq<ProductsPayload>)
    requires |pages| >= 1 && AnswersArePages(codecs, rs, pages)
    requires forall i :: 0 <= i < |pages| ==> pages[i].total <= 0
    requires forall i :: 0 <= i < |pages| - 1 ==> |pages[i].items| == pageSize
    requires 0 < |pages[|pages| - 1].items| < pageSize
    ensures var r := ProductsLoop(queryAuth, token, codecs, pageSize, offset, rs);
      r.items == AllProducts(pages, codecs.dateTimeOffset) && r.error.None? && r.rest == []
    decreases |rs|
  {
    var p := pages[0];
    assert IsSuccess(rs[0].status) && codecs.readPayload(rs[0].body) == Ok(p);
    var items := ProductsOf(p.items, codecs.dateTimeOffset);
    assert AllProducts(pages, codecs.dateTimeOffset) == items + AllProducts(pages[1..], codecs.dateTimeOffset);
    if |pages| == 1 {
      ProductsLoopStops(queryAuth, token, codecs, pageSize, offset, rs, p);
      assert AllProducts(pages[1..], codecs.dateTimeOffset) == [];
      assert items + [] == items;
    } else {
      assert |p.items| == pageSize && pageSize > 0;
      var next := Narrow(offset + |p.items|);
      ProductsLoopContinues(queryAuth, token, codecs, pageSize, offset, rs, p, next);
      AnswersArePagesTail(codecs, rs, pages);
      var tail := pages[1..];
      assert forall i :: 0 <= i < |tail| ==> tail[i] == pages[i + 1];
      assert tail[|tail| - 1] == pages[|pages| - 1];
      ProductsLoopShortLastPage(queryAuth, token, codecs, pageSize, next, rs[1..], tail);
    }
  }

  /** `AllProducts` holds every item of every page. */
  lemma {:induction false} AllProductsLength(pages: seq<ProductsPayload>, parseOffset: string -> Option<Instant>, n: nat)
    requires forall i :: 0 <= i < |pages| ==> |pages[i].items| == n
    ensures |AllProducts(pages, parseOffset)| == |pages| * n
  {
    if pages != [] {
      AllProductsLength(pages[1..], parseOffset, n);
      assert |pages| * n == (|pages| - 1) * n + n;
    }
  }

  lemma MulStep(k: int, n: int)
    requires k >= 1 && n > 0
    ensures k * n == (k - 1) * n + n
    ensures k > 1 ==> (k - 1) * n >= n
    ensures k == 1 ==> (k - 1) * n == 0
  {
  }

  /** When every page is full and reports the same positive `total`, the run stops exactly
      when the offset reaches `total`: it yields `total - offset` items and reads every page. */
  lemma {:induction false} ProductsLoopReachesTotal(queryAuth: bool, token: string, codecs: Codecs,
      pageSize: int32, offset: int32, rs: seq<Response>, pages: seq<ProductsPayload>, total: int32)
    requires pageSize > 0 && offset >= 0
    requires |pages| >= 1 && AnswersArePages(codecs, rs, pages)
    requires forall i :: 0 <= i < |pages| ==> pages[i].total == total && |pages[i].items| == pageSize
    requires offset + |pages| * pageSize == total
    ensures var r := ProductsLoop(queryAuth, token, codecs, pageSize, offset, rs);
      && r.items == AllProducts(pages, codecs.dateTimeOffset) && |r.items| == total - offset
      && r.error.None? && r.rest == []
    decreases |rs|
  {
    AllProductsLength(pages, codecs.dateTimeOffset, pageSize);
    var k := |pages| - 1;
    MulStep(|pages|, pageSize);
    var restSize := k * pageSize;
    assert total == offset + pageSize + restSize;
    var p := pages[0];
    assert IsSuccess(rs[0].status) && codecs.readPayload(rs[0].body) == Ok(p);
    assert p.total == total && |p.items| == pageSize;
    var items := ProductsOf(p.items, codecs.dateTimeOffset);
    NarrowFits(offset + pageSize);
    var next := offset + pageSize;
    assert AllProducts(pages, codecs.dateTimeOffset) == items + AllProducts(pages[1..], codecs.dateTimeOffset);
    if k == 0 {
      ProductsLoopStops(queryAuth, token, codecs, pageSize, offset, rs, p);
      assert AllProducts(pages[1..], codecs.dateTimeOffset) == [];
      assert items + [] == items;
    } else {
      ProductsLoopContinues(queryAuth, token, codecs, pageSize, offset, rs, p, next);
      AnswersArePagesTail(codecs, rs, pages);
      var tail := pages[1..];
      assert |tail| == k;
      assert forall i :: 0 <= i < |tail| ==> tail[i] == pages[i + 1];
      ProductsLoopReachesTotal(queryAuth, token, codecs, pageSize, next, rs[1..], tail, total);
    }
  }

  // ---------- the stop rules of the raw loops ----------

  /** A raw page as the server writes it: the `items` array, `count` and `total`, each of
      which may be missing. */
  datatype RawPage = RawPage(items: Option<seq<Element>>, count: Option<int32>, total: Option<int32>)

  /** The JSON document of a raw page. */
  function PageJson(p: RawPage): Json {
    var m0: map<string, Json> := if p.items.Some? then map["items" := JArray(p.items.value)] else map[];
    var m1 := if p.count.Some? then m0["count" := JInt(p.count.value)] else m0;
    JObject(if p.total.Some? then m1["total" := JInt(p.total.value)] else m1)
  }

  /** The elements of a page; a missing `items` is read as no element. */
  function PageElems(p: RawPage): seq<Element> {
    if p.items.Some? then p.items.value else []
  }

  /** The `count` of a page, the array length in 32 bits when it is missing. */
  function PageCount(p: RawPage): int32 {
    if p.count.Some? then p.count.value else Narrow(|PageElems(p)|)
  }

  /** The `total` of a page, 0 when it is missing. */
  function PageTotal(p: RawPage): int32 {
    if p.total.Some? then p.total.value else 0
  }

  /** The offset after a page read at `offset`, in 32-bit arithmetic. */
  function PageNext(p: RawPage, offset: int32): int32 {
    Narrow(offset + PageCount(p))
  }

  /** A page read at `offset` ends the run when it has no element or meets `RawStop`. */
  predicate PageEnds(p: RawPage, offset: int32) {
    PageElems(p) == [] || RawStop(PageNext(p, offset), PageTotal(p), PageCount(p))
  }

  /** One turn of a raw loop on a page: the elements are mapped in order; a failing element
      ends the run with the elements before it and its fault; otherwise the run ends with the
      page's elements when the page ends it, or goes on from the next offset. */
  lemma RawStepOfPage<T>(codecs: Codecs, f: Element -> Result<T, JsonFault>, offset: int32,
                         resp: Response, p: RawPage)
    requires IsSuccess(resp.status) && codecs.parseDocument(resp.body) == Some(PageJson(p))
    ensures var (ys, e) := MapElements(PageElems(p), f);
      RawStep(codecs, f, offset, Some(resp)) ==
        if e.Some? then Stop(ys, Some(JsonError(e.value)))
        else if PageEnds(p, offset) then Stop(ys, None)
        else Continue(ys, PageNext(p, offset))
  {
    var root := PageJson(p);
    assert "items" in root.props <==> p.items.Some?;
    assert "count" in root.props <==> p.count.Some?;
    assert "total" in root.props <==> p.total.Some?;
    if p.items.None? {
      assert TryGetProperty(root, "items") == Ok(None);
    } else {
      var elems := p.items.value;
      assert root.props["items"] == JArray(elems);
      assert TryGetProperty(root, "items") == Ok(Some(JArray(elems)));
      if elems != [] && MapElements(elems, f).1.None? {
        assert p.count.Some? ==> root.props["count"] == JInt(p.count.value);
        assert p.total.Some? ==> root.props["total"] == JInt(p.total.value);
        assert CountAndTotal(root, |elems|) == Ok((PageCount(p), PageTotal(p)));
      }
    }
  }

  /** The answers are successful raw pages, read as `pages`, and possibly more answers. */
  ghost predicate AnswersAreRawPages(codecs: Codecs, rs: seq<Response>, pages: seq<RawPage>) {
    |pages| <= |rs| && forall i :: 0 <= i < |pages| ==>
      IsSuccess(rs[i].status) && codecs.parseDocument(rs[i].body) == Some(PageJson(pages[i]))
  }

  /** The offset at which page `k` is requested, from `offset` at the first page. */
  function OffsetAt(pages: seq<RawPage>, offset: int32, k: nat): int32
    requires k <= |pages|
  {
    if k == 0 then offset else OffsetAt(pages[1..], PageNext(pages[0], offset), k - 1)
  }

  /** The mapped elements of a sequence of pages, page after page. */
  function AllMapped<T>(pages: seq<RawPage>, f: Element -> Result<T, JsonFault>): seq<T> {
    Flatten(MappedPages(pages, f))
  }

  /** The mapped elements of each page. */
  function MappedPages<T>(pages: seq<RawPage>, f: Element -> Result<T, JsonFault>): (yss: seq<seq<T>>)
    ensures |yss| == |pages|
  {
    if pages == [] then [] else [MapElements(PageElems(pages[0]), f).0] + MappedPages(pages[1..], f)
  }

  /** One turn of a raw loop on a successful answer, in either mode. */
  lemma RawLoopUnfold<T>(queryAuth: bool, token: string, codecs: Codecs, resource: string, pageSize: int32,
                         f: Element -> Result<T, JsonFault>, offset: int32, rs: seq<Response>)
    requires rs != [] && IsSuccess(rs[0].status)
    ensures var r := RawLoop(queryAuth, token, codecs, resource, pageSize, f, offset, rs);
      var s := RawStep(codecs, f, offset, Some(rs[0]));
      && (s.Stop? ==> r.items == s.items && r.error == s.error && r.rest == rs[1..])
      && (s.Continue? ==>
            var r' := RawLoop(queryAuth, token, codecs, resource, pageSize, f, s.next, rs[1..]);
            r.items == s.items + r'.items && r.error == r'.error && r.rest == r'.rest)
  {
    var x := AuthGet(queryAuth, token, BuildUrl(queryAuth, token, PagePath(resource, offset, pageSize)), rs);
    assert x.response == Some(rs[0]) && x.rest == rs[1..] && x.queryAuth == queryAuth;
    assert RawTurn(queryAuth, token, codecs, resource, pageSize, f, offset, rs) ==
      (x, RawStep(codecs, f, offset, Some(rs[0])));
  }

  /** Every element of every page maps, and of the pages, requested at the offsets they lead
      to, exactly the last ends the run. */
  ghost predicate OnlyLastEnds<T>(pages: seq<RawPage>, offset: int32, f: Element -> Result<T, JsonFault>) {
    && |pages| >= 1
    && (forall k :: 0 <= k < |pages| ==> MapElements(PageElems(pages[k]), f).1.None?)
    && (forall k :: 0 <= k < |pages| - 1 ==> !PageEnds(pages[k], OffsetAt(pages, offset, k)))
    && PageEnds(pages[|pages| - 1], OffsetAt(pages, offset, |pages| - 1))
  }

  /** The same condition, page after page. */
  ghost predicate ReadToLast<T>(pages: seq<RawPage>, offset: int32, f: Element -> Result<T, JsonFault>)
    decreases |pages|
  {
    && |pages| >= 1
    && MapElements(PageElems(pages[0]), f).1.None?
    && if |pages| == 1 then PageEnds(pages[0], offset)
       else !PageEnds(pages[0], offset) && ReadToLast(pages[1..], PageNext(pages[0], offset), f)
  }

  lemma ReadToLastIff<T>(pages: seq<RawPage>, offset: int32, f: Element -> Result<T, JsonFault>)
    ensures ReadToLast(pages, offset, f) <==> OnlyLastEnds(pages, offset, f)
  {
    if ReadToLast(pages, offset, f) {
      OnlyLastEndsOfRead(pages, offset, f);
    }
    if OnlyLastEnds(pages, offset, f) {
      ReadOfOnlyLastEnds(pages, offset, f);
    }
  }

  /** The pages after the first, requested from the offset the first leads to. */
  lemma PagesTail(pages: seq<RawPage>, offset: int32)
    requires |pages| >= 1
    ensures var tail, next := pages[1..], PageNext(pages[0], offset);
      forall k :: 0 <= k < |tail| ==> tail[k] == pages[k + 1] && OffsetAt(tail, next, k) == OffsetAt(pages, offset, k + 1)
  {
  }

  lemma {:induction false} ReadOfOnlyLastEnds<T>(pages: seq<RawPage>, offset: int32, f: Element -> Result<T, JsonFault>)
    requires OnlyLastEnds(pages, offset, f)
    ensures ReadToLast(pages, offset, f)
    decreases |pages|
  {
    assert OffsetAt(pages, offset, 0) == offset;
    if |pages| >= 2 {
      var tail, next := pages[1..], PageNext(pages[0], offset);
      PagesTail(pages, offset);
      assert !PageEnds(pages[0], offset);
      assert OnlyLastEnds(tail, next, f);
      ReadOfOnlyLastEnds(tail, next, f);
    }
  }

  lemma {:induction false} OnlyLastEndsOfRead<T>(pages: seq<RawPage>, offset: int32, f: Element -> Result<T, JsonFault>)
    requires ReadToLast(pages, offset, f)
    ensures OnlyLastEnds(pages, offset, f)
    decreases |pages|
  {
    assert OffsetAt(pages, offset, 0) == offset;
    if |pages| >= 2 {
      var tail, next := pages[1..], PageNext(pages[0], offset);
      OnlyLastEndsOfRead(tail, next, f);
      PagesTail(pages, offset);
      forall k | 0 <= k < |pages| ensures MapElements(PageElems(pages[k]), f).1.None? {
        if k > 0 {
          assert pages[k] == tail[k - 1];
        }
      }
      forall k | 0 <= k < |pages| - 1 ensures !PageEnds(pages[k], OffsetAt(pages, offset, k)) {
        if k > 0 {
          assert pages[k] == tail[k - 1];
        }
      }
    }
  }

  /** Pages whose elements all map, of which only the last ends the run, are read to the
      end in either authentication mode: the run yields every page's mapped elements in
      order and stops without error right after the last page, leaving any later answer
      unread (so, by `RawLoopLaws`, it sent one request per page). */
  lemma RawLoopPages<T>(queryAuth: bool, token: string, codecs: Codecs, resource: string,
      pageSize: int32, f: Element -> Result<T, JsonFault>, offset: int32, rs: seq<Response>, pages: seq<RawPage>)
    requires AnswersAreRawPages(codecs, rs, pages) && OnlyLastEnds(pages, offset, f)
    ensures var r := RawLoop(queryAuth, token, codecs, resource, pageSize, f, offset, rs);
      r.items == AllMapped(pages, f) && r.error.None? && r.rest == rs[|pages|..]
  {
    ReadToLastIff(pages, offset, f);
    PagesSteps(codecs, f, offset, rs, pages);
    RawLoopSteps(queryAuth, token, codecs, resource, pageSize, f, offset, rs, pages, MappedPages(pages, f));
  }

  /** The answers step as the pages say: each page but the last continues from the offset
      it leads to and the last stops, yielding `yss`, one batch per page. */
  ghost predicate StepsAlong<T>(codecs: Codecs, f: Element -> Result<T, JsonFault>, offset: int32,
                                rs: seq<Response>, pages: seq<RawPage>, yss: seq<seq<T>>)
    decreases |pages|
  {
    && 1 <= |pages| <= |rs| && |yss| == |pages| && IsSuccess(rs[0].status)
    && if |pages| == 1 then RawStep(codecs, f, offset, Some(rs[0])) == Stop(yss[0], None)
       else
         var next := PageNext(pages[0], offset);
         && RawStep(codecs, f, offset, Some(rs[0])) == Continue(yss[0], next)
         && StepsAlong(codecs, f, next, rs[1..], pages[1..], yss[1..])
  }

  lemma {:induction false} PagesSteps<T>(codecs: Codecs, f: Element -> Result<T, JsonFault>, offset: int32,
                                         rs: seq<Response>, pages: seq<RawPage>)
    requires AnswersAreRawPages(codecs, rs, pages) && ReadToLast(pages, offset, f)
    ensures StepsAlong(codecs, f, offset, rs, pages, MappedPages(pages, f))
    decreases |pages|
  {
    assert IsSuccess(rs[0].status) && codecs.parseDocument(rs[0].body) == Some(PageJson(pages[0]));
    RawStepOfPage(codecs, f, offset, rs[0], pages[0]);
    var yss := MappedPages(pages, f);
    assert yss[0] == MapElements(PageElems(pages[0]), f).0;
    if |pages| > 1 {
      RawAnswersTail(codecs, rs, pages);
      PagesSteps(codecs, f, PageNext(pages[0], offset), rs[1..], pages[1..]);
      assert yss[1..] == MappedPages(pages[1..], f);
    }
  }

  lemma {:induction false} RawLoopSteps<T>(queryAuth: bool, token: string, codecs: Codecs, resource: string,
      pageSize: int32, f: Element -> Result<T, JsonFault>, offset: int32, rs: seq<Response>, pages: seq<RawPage>,
      yss: seq<seq<T>>)
    requires StepsAlong(codecs, f, offset, rs, pages, yss)
    ensures var r := RawLoop(queryAuth, token, codecs, resource, pageSize, f, offset, rs);
      r.items == Flatten(yss) && r.error.None? && r.rest == rs[|pages|..]
    decreases |pages|
  {
    RawLoopUnfold(queryAuth, token, codecs, resource, pageSize, f, offset, rs);
    if |pages| == 1 {
      assert Flatten(yss) == yss[0] + Flatten([]);
    } else {
      var tail := pages[1..];
      RawLoopSteps(queryAuth, token, codecs, resource, pageSize, f, PageNext(pages[0], offset), rs[1..], tail, yss[1..]);
      assert rs[1..][|tail|..] == rs[|pages|..];
    }
  }

  /** A page that does not end the run: its mapped elements come first, then the rest of the
      run from the next offset. */
  lemma RawLoopContinues<T>(queryAuth: bool, token: string, codecs: Codecs, resource: string, pageSize: int32,
                            f: Element -> Result<T, JsonFault>, offset: int32, rs: seq<Response>, p: RawPage)
    requires rs != [] && IsSuccess(rs[0].status) && codecs.parseDocument(rs[0].body) == Some(PageJson(p))
    requires MapElements(PageElems(p), f).1.None? && !PageEnds(p, offset)
    ensures var r := RawLoop(queryAuth, token, codecs, resource, pageSize, f, offset, rs);
      var r' := RawLoop(queryAuth, token, codecs, resource, pageSize, f, PageNext(p, offset), rs[1..]);
      r.items == MapElements(PageElems(p), f).0 + r'.items && r.error == r'.error && r.rest == r'.rest
  {
    RawStepOfPage(codecs, f, offset, rs[0], p);
    RawLoopUnfold(queryAuth, token, codecs, resource, pageSize, f, offset, rs);
  }

  /** A page that ends the run, with all its elements mapped: they are the whole run. */
  lemma RawLoopStops<T>(queryAuth: bool, token: string, codecs: Codecs, resource: string, pageSize: int32,
                        f: Element -> Result<T, JsonFault>, offset: int32, rs: seq<Response>, p: RawPage)
    requires rs != [] && IsSuccess(rs[0].status) && codecs.parseDocument(rs[0].body) == Some(PageJson(p))
    requires MapElements(PageElems(p), f).1.None? && PageEnds(p, offset)
    ensures var r := RawLoop(queryAuth, token, codecs, resource, pageSize, f, offset, rs);
      r.items == MapElements(PageElems(p), f).0 && r.error.None? && r.rest == rs[1..]
  {
    RawStepOfPage(codecs, f, offset, rs[0], p);
    RawLoopUnfold(queryAuth, token, codecs, resource, pageSize, f, offset, rs);
  }

  lemma RawAnswersTail(codecs: Codecs, rs: seq<Response>, pages: seq<RawPage>)
    requires |pages| >= 1 && AnswersAreRawPages(codecs, rs, pages)
    ensures AnswersAreRawPages(codecs, rs[1..], pages[1..])
  {
    forall i | 0 <= i < |pages| - 1
      ensures IsSuccess(rs[1..][i].status) && codecs.parseDocument(rs[1..][i].body) == Some(PageJson(pages[1..][i]))
    {
      assert rs[1..][i] == rs[i + 1] && pages[1..][i] == pages[i + 1];
    }
  }

  /** `AllMapped` holds every element of every page when all of them map. */
  lemma {:induction false} AllMappedLength<T>(pages: seq<RawPage>, f: Element -> Result<T, JsonFault>, n: nat)
    requires forall i :: 0 <= i < |pages| ==> |PageElems(pages[i])| == n && MapElements(PageElems(pages[i]), f).1.None?
    ensures |AllMapped(pages, f)| == |pages| * n
  {
    if pages != [] {
      var tail := pages[1..];
      assert forall i :: 0 <= i < |tail| ==> tail[i] == pages[i + 1];
      AllMappedLength(tail, f, n);
      MulSucc(|tail|, n);
      var yss := MappedPages(pages, f);
      assert yss[1..] == MappedPages(tail, f);
      assert AllMapped(pages, f) == yss[0] + AllMapped(tail, f);
    }
  }

  lemma MulSucc(k: nat, n: nat)
    ensures (k + 1) * n == k * n + n
  {
  }

  /** Full pages that each report their length as `count` and the same positive `total`,
      from an offset `|pages|` pages below it, end the run exactly at the last page. */
  ghost predicate FullPagesTo<T>(pages: seq<RawPage>, f: Element -> Result<T, JsonFault>, pageSize: int32, total: int32) {
    forall i :: 0 <= i < |pages| ==>
      && |PageElems(pages[i])| == pageSize && PageCount(pages[i]) == pageSize && PageTotal(pages[i]) == total
      && MapElements(PageElems(pages[i]), f).1.None?
  }

  lemma {:induction false} FullPagesReadToLast<T>(pages: seq<RawPage>, f: Element -> Result<T, JsonFault>,
                                                  pageSize: int32, offset: int32, total: int32)
    requires pageSize > 0 && offset >= 0 && |pages| >= 1
    requires FullPagesTo(pages, f, pageSize, total) && offset + |pages| * pageSize == total
    ensures ReadToLast(pages, offset, f)
    decreases |pages|
  {
    var p := pages[0];
    TotalStep(offset, pageSize, total, |pages|);
    FullPageEnds(p, offset, pageSize, total);
    if |pages| > 1 {
      var tail := pages[1..];
      assert FullPagesTo(tail, f, pageSize, total) by {
        assert forall i :: 0 <= i < |tail| ==> tail[i] == pages[i + 1];
      }
      FullPagesReadToLast(tail, f, pageSize, offset + pageSize, total);
    }
  }

  /** When every page is full, reports its length as `count` and the same positive `total`,
      and all its elements map, a raw loop stops exactly when the offset reaches `total`: it
      yields `total - offset` elements and reads every page. */
  lemma RawLoopReachesTotal<T>(queryAuth: bool, token: string, codecs: Codecs, resource: string,
      pageSize: int32, f: Element -> Result<T, JsonFault>, offset: int32, rs: seq<Response>, pages: seq<RawPage>,
      total: int32)
    requires pageSize > 0 && offset >= 0
    requires |pages| >= 1 && AnswersAreRawPages(codecs, rs, pages)
    requires forall i :: 0 <= i < |pages| ==>
      && |PageElems(pages[i])| == pageSize && PageCount(pages[i]) == pageSize && PageTotal(pages[i]) == total
      && MapElements(PageElems(pages[i]), f).1.None?
    requires offset + |pages| * pageSize == total
    ensures var r := RawLoop(queryAuth, token, codecs, resource, pageSize, f, offset, rs);
      && r.items == AllMapped(pages, f) && |r.items| == total - offset
      && r.error.None? && r.rest == rs[|pages|..]
  {
    assert FullPagesTo(pages, f, pageSize, total);
    FullPagesReadToLast(pages, f, pageSize, offset, total);
    PagesSteps(codecs, f, offset, rs, pages);
    RawLoopSteps(queryAuth, token, codecs, resource, pageSize, f, offset, rs, pages, MappedPages(pages, f));
    AllMappedLength(pages, f, pageSize);
  }

  /** The first of `n` full pages stays within `total`, and the others make up the rest. */
  lemma TotalStep(offset: int, pageSize: int, total: int, n: int)
    requires pageSize > 0 && n >= 1 && offset + n * pageSize == total
    ensures offset + pageSize <= total
    ensures n == 1 <==> offset + pageSize == total
    ensures (offset + pageSize) + (n - 1) * pageSize == total
  {
    MulStep(n, pageSize);
  }

  /** A full page whose `count` is its length, read below `total`, advances the offset by
      its length and ends the run exactly when that reaches `total`. */
  lemma FullPageEnds(p: RawPage, offset: int32, pageSize: int32, total: int32)
    requires pageSize > 0 && offset >= 0 && offset + pageSize <= total
    requires |PageElems(p)| == pageSize && PageCount(p) == pageSize && PageTotal(p) == total
    ensures PageNext(p, offset) == offset + pageSize
    ensures PageEnds(p, offset) <==> offset + pageSize == total
  {
    NarrowFits(offset + pageSize);
  }

  /** A page whose element fails to map ends the run with the elements before it and the
      element's fault. Pages read before it contribute their mapped elements in front, by
      `RawLoopContinues`. */
  lemma RawLoopFault<T>(queryAuth: bool, token: string, codecs: Codecs, resource: string, pageSize: int32,
                        f: Element -> Result<T, JsonFault>, offset: int32, rs: seq<Response>, p: RawPage)
    requires rs != [] && IsSuccess(rs[0].status) && codecs.parseDocument(rs[0].body) == Some(PageJson(p))
    requires MapElements(PageElems(p), f).1.Some?
    ensures var r := RawLoop(queryAuth, token, codecs, resource, pageSize, f, offset, rs);
      var (ys, e) := MapElements(PageElems(p), f);
      r.items == ys && r.error == Some(JsonError(e.value)) && r.rest == rs[1..]
  {
    RawStepOfPage(codecs, f, offset, rs[0], p);
    RawLoopUnfold(queryAuth, token, codecs, resource, pageSize, f, offset, rs);
  }

  // ---------- a worked example ----------

  /** A categories page with one element whose `id` is `id`, reporting `count` 1 and `total` 2. */
  function OneCategoryPage(id: int, raw: string): Json {
    JObject(map[
      "items" := JArray([Element(raw, JObject(map["id" := JInt(id)]))]),
      "count" := JInt(1),
      "total" := JInt(2)])
  }

  lemma OneCategoryStep(codecs: Codecs, body: string, id: int32, raw: string, offset: int32)
    requires 0 <= id && codecs.parseDocument(body) == Some(OneCategoryPage(id, raw))
    requires offset == id - 1
    ensures RawStep(codecs, RawCategory(codecs), offset, Some(Response(200, body))) ==
      if id < 2 then Continue([(Category(id, None, "", false, None), raw)], id)
      else Stop([(Category(id, None, "", false, None), raw)], None)
  {
    NarrowFits(id);
    var c := Category(id, None, "", false, None);
    assert MapCategory(JObject(map["id" := JInt(id)]), codecs.dates) == Ok(c);
    var root := OneCategoryPage(id, raw);
    assert CountAndTotal(root, 1) == Ok((1, 2));
    NarrowFits(offset + 1);
  }

  /** Two one-item pages with `total` 2, read with page size 1: the categories 1 and 2 are
      yielded with their own raw texts, both answers are read, and the run stops after the
      second page. */
  lemma TwoPageCategoryRun(queryAuth: bool, token: string, codecs: Codecs, b1: string, b2: string,
                           raw1: string, raw2: string)
    requires codecs.parseDocument(b1) == Some(OneCategoryPage(1, raw1))
    requires codecs.parseDocument(b2) == Some(OneCategoryPage(2, raw2))
    ensures var r := RawLoop(queryAuth, token, codecs, "categories", 1, RawCategory(codecs), 0,
                             [Response(200, b1), Response(200, b2)]);
      && r.error.None? && r.rest == [] && |r.sent| == 2 && r.queryAuth == queryAuth
      && |r.items| == 2
      && r.items[0].0.id == 1 && r.items[0].1 == raw1
      && r.items[1].0.id == 2 && r.items[1].1 == raw2
  {
    var rs := [Response(200, b1), Response(200, b2)];
    var f := RawCategory(codecs);
    var x1 := AuthGet(queryAuth, token, BuildUrl(queryAuth, token, PagePath("categories", 0, 1)), rs);
    assert x1.response == Some(rs[0]) && x1.rest == rs[1..] == [Response(200, b2)];
    OneCategoryStep(codecs, b1, 1, raw1, 0);
    assert RawTurn(queryAuth, token, codecs, "categories", 1, f, 0, rs) == (x1, RawStep(codecs, f, 0, x1.response));
    LastCategoryPage(x1.queryAuth, token, codecs, b2, raw2);
  }

  /** The second of those pages, alone: the run from offset 1 stops after it. */
  lemma LastCategoryPage(queryAuth: bool, token: string, codecs: Codecs, b2: string, raw2: string)
    requires codecs.parseDocument(b2) == Some(OneCategoryPage(2, raw2))
    ensures var r := RawLoop(queryAuth, token, codecs, "categories", 1, RawCategory(codecs), 1, [Response(200, b2)]);
      && r.error.None? && r.rest == [] && |r.sent| == 1 && r.queryAuth == queryAuth
      && r.items == [(Category(2, None, "", false, None), raw2)]
  {
    var rs := [Response(200, b2)];
    var f := RawCategory(codecs);
    var x2 := AuthGet(queryAuth, token, BuildUrl(queryAuth, token, PagePath("categories", 1, 1)), rs);
    assert x2.response == Some(rs[0]) && x2.rest == [];
    OneCategoryStep(codecs, b2, 2, raw2, 1);
    assert RawTurn(queryAuth, token, codecs, "categories", 1, f, 1, rs) == (x2, RawStep(codecs, f, 1, x2.response));
  }
}
