/** The Xtremecache module: a read hook that serves a stored page and stops
    the request, a write hook that stores the rendered page, and a catch-all
    that empties the cache on every `action…` hook. */
module FullPageCache {
  import opened PhpRuntime
  import opened Context
  import opened Eligibility
  import opened CacheKey
  import opened PageCache

  // ---------------------------------------------------------------------
  // Hook registration
  // ---------------------------------------------------------------------

  /** The hooks `install` registers, in order. */
  const INSTALL_HOOKS: seq<string> := [
    "actionCategoryAdd", "actionCategoryUpdate", "actionCategoryDelete",
    "actionProductAdd", "actionProductUpdate", "actionProductDelete",
    "actionProductSave", "displayHeader", "actionResponse"]

  /** The hooks `uninstall` unregisters, in order. */
  const UNINSTALL_HOOKS: seq<string> := [
    "actionCategoryAdd", "actionCategoryUpdate", "actionCategoryDelete",
    "actionProductAdd", "actionProductUpdate", "actionProductDelete",
    "actionProductSave", "displayHeader", "actionResponse"]

  /** Which method of the module a hook method name (`hook` + hook name)
      reaches. PHP looks method names up without regard to case; among hook
      method names the class defines only the two below, so every other one
      goes to `__call`. Names that are not hook methods are not covered. */
  datatype Route = ToDisplayHeader | ToActionResponse | ToMagicCall

  function RouteOf(name: string): Route
  {
    var lower := StrToLower(name);
    if lower == "hookdisplayheader" then ToDisplayHeader
    else if lower == "hookactionresponse" then ToActionResponse
    else ToMagicCall
  }

  /** `uninstall` unregisters exactly the hooks `install` registers, in the
      same order. */
  lemma UninstallRemovesInstalledHooks()
    ensures UNINSTALL_HOOKS == INSTALL_HOOKS
    ensures |INSTALL_HOOKS| == 9 && "displayHeader" in INSTALL_HOOKS && "actionResponse" in INSTALL_HOOKS
  {
  }

  // ---------------------------------------------------------------------
  // Key and stored page
  // ---------------------------------------------------------------------

  /** The parts of a request's key. A missing REQUEST_URI (null) joins as "". */
  function PartsOf(req: Request): KeyParts
  {
    KeyParts(if req.requestUri.Some? then req.requestUri.value else "",
             req.cart.idCurrency, req.cart.idLang, req.cart.idShop, req.countryId, req.device)
  }

  function KeyOf(req: Request): string
  {
    Key(PartsOf(req))
  }

  const ANNOTATION_OPEN: string := "<!-- cached on "
  const ANNOTATION_CLOSE: string := " -->\n"

  /** The page as stored: an HTML comment carrying the time stamp, a line
      break, then the rendered page. */
  function Annotate(stamp: string, html: string): (r: string)
    ensures Truthy(Some(r))
    ensures |r| == |ANNOTATION_OPEN| + |stamp| + |ANNOTATION_CLOSE| + |html|
    ensures r[..|ANNOTATION_OPEN|] == ANNOTATION_OPEN
    ensures r[|r| - |html|..] == html
  {
    var r := ANNOTATION_OPEN + stamp + ANNOTATION_CLOSE + html;
    assert r[0] == '<';
    assert r[..|ANNOTATION_OPEN|] == ANNOTATION_OPEN;
    assert r[|r| - |html|..] == html;
    r
  }

  /** Read a stored page back into its time stamp and the rendered page:
      the first line must be the annotation comment. */
  function StripAnnotation(page: string): Option<(string, string)>
  {
    match StrPos(page, "\n")
    case None => None
    case Some(p) =>
      var line := page[..p];
      if |line| >= |ANNOTATION_OPEN| + 4 && line[..|ANNOTATION_OPEN|] == ANNOTATION_OPEN
         && line[|line| - 4..] == " -->"
      then Some((line[|ANNOTATION_OPEN|..|line| - 4], page[p + 1..]))
      else None
  }

  /** The annotation can be taken off again, giving back the time stamp and
      exactly the rendered page, when the stamp holds no line break (a
      `date("Y-m-d H:i:s")` never does). */
  lemma AnnotationRoundTrip(stamp: string, html: string)
    requires '\n' !in stamp
    ensures StripAnnotation(Annotate(stamp, html)) == Some((stamp, html))
  {
    var page := Annotate(stamp, html);
    var head := ANNOTATION_OPEN + stamp + " -->";
    assert page == head + "\n" + html;
    var n := |head|;
    assert OccursAt(page, "\n", n);
    forall j | 0 <= j < n ensures !OccursAt(page, "\n", j) {
      assert page[j..j + 1] == [head[j]];
      if j >= |ANNOTATION_OPEN| && j < |ANNOTATION_OPEN| + |stamp| {
        assert head[j] == stamp[j - |ANNOTATION_OPEN|];
      }
    }
    assert StrPos(page, "\n") == Some(n);
    assert page[..n] == head;
    assert head[..|ANNOTATION_OPEN|] == ANNOTATION_OPEN;
    assert head[n - 4..] == " -->";
    assert head[|ANNOTATION_OPEN|..n - 4] == stamp;
    assert page[n + 1..] == html;
  }

  // ---------------------------------------------------------------------
  // What each hook does, as functions of the cache contents
  // ---------------------------------------------------------------------

  /** `displayHeader` either lets rendering go on, or clears the output
      buffer, sends the headers and the body, and ends the request. */
  datatype HeaderOutcome = PassThrough | ServeAndStop(headers: seq<string>, body: string)

  const CACHED_HEADER: string := "X-Xtremecached: True"

  function ServedHeaders(config: Config): seq<string>
  {
    if config.customerHeader then [CACHED_HEADER] else []
  }

  /** Serve the stored page when the request is eligible and the cache holds
      a truthy value under its key. */
  function DisplayHeaderSpec(config: Config, entries: map<string, CacheEntry>, req: Request): HeaderOutcome
  {
    if IsActive(config, req) then
      var hit := Lookup(entries, KeyOf(req));
      if Truthy(hit) then ServeAndStop(ServedHeaders(config), hit.value) else PassThrough
    else PassThrough
  }

  /** The cache after `store(html)`. */
  function StoreSpec(config: Config, entries: map<string, CacheEntry>, req: Request,
                     html: string, stamp: string): map<string, CacheEntry>
  {
    entries[KeyOf(req) := CacheEntry(Annotate(stamp, html), config.ttl)]
  }

  /** The cache after `actionResponse`: stored only for an eligible request. */
  function ActionResponseSpec(config: Config, entries: map<string, CacheEntry>, req: Request,
                              html: string, stamp: string): map<string, CacheEntry>
  {
    if IsActive(config, req) then StoreSpec(config, entries, req, html, stamp) else entries
  }

  /** `__call` flushes when the module is reactive and the lower-cased name
      begins with "hookaction" (`0 === strpos(...)`). */
  predicate IsInvalidation(config: Config, name: string)
  {
    config.reactive && StrPos(StrToLower(name), "hookaction") == Some(0)
  }

  function CallSpec(config: Config, entries: map<string, CacheEntry>, name: string): map<string, CacheEntry>
  {
    if IsInvalidation(config, name) then map[] else entries
  }

  /** `__call` either flushed the cache or handed the call to the parent class. */
  datatype CallOutcome = Flushed | DelegatedToParent(name: string, arguments: seq<string>)

  // ---------------------------------------------------------------------
  // The module
  // ---------------------------------------------------------------------

  class Xtremecache {
    const config: Config
    const cache: Cache

    constructor (config: Config, cache: Cache)
      ensures this.config == config && this.cache == cache
    {
      this.config := config;
      this.cache := cache;
    }

    /** The stored page for the request's key, if any. */
    method Load(req: Request) returns (html: Option<string>)
      ensures html.Some? <==> KeyOf(req) in cache.entries
      ensures html.Some? ==> html.value == cache.entries[KeyOf(req)].value
    {
      html := cache.Get(KeyOf(req));
    }

    /** Store the annotated page under the request's key for one TTL. */
    method Store(req: Request, html: string, stamp: string)
      modifies cache
      ensures cache.entries == StoreSpec(config, old(cache.entries), req, html, stamp)
    {
      var key := KeyOf(req);
      var response := Annotate(stamp, html);
      cache.Set(key, response, config.ttl);
    }

    method HookDisplayHeader(req: Request) returns (outcome: HeaderOutcome)
      ensures outcome == DisplayHeaderSpec(config, cache.entries, req)
    {
      outcome := PassThrough;
      if IsActive(config, req) {
        var html := Load(req);
        if Truthy(html) {
          var headers := [];
          if config.customerHeader {
            headers := headers + [CACHED_HEADER];
          }
          outcome := ServeAndStop(headers, html.value);
        }
      }
    }

    method HookActionResponse(req: Request, html: string, stamp: string)
      modifies cache
      ensures cache.entries == ActionResponseSpec(config, old(cache.entries), req, html, stamp)
    {
      if IsActive(config, req) {
        Store(req, html, stamp);
      }
    }

    /** `__call`: the target of every hook method the class does not define. */
    method MagicCall(name: string, arguments: seq<string>) returns (outcome: CallOutcome)
      modifies cache
      ensures outcome == if IsInvalidation(config, name) then Flushed else DelegatedToParent(name, arguments)
      ensures cache.entries == CallSpec(config, old(cache.entries), name)
    {
      if IsInvalidation(config, name) {
        cache.Flush();
        outcome := Flushed;
      } else {
        outcome := DelegatedToParent(name, arguments);
      }
    }
  }

  // ---------------------------------------------------------------------
  // Properties
  // ---------------------------------------------------------------------

  /** The name test of `__call` is a case-insensitive prefix test. */
  lemma InvalidationIffPrefix(config: Config, name: string)
    ensures IsInvalidation(config, name)
            <==> config.reactive && |name| >= 10 && StrToLower(name[..10]) == "hookaction"
  {
  }

  /** `__call`'s name test accepts the method name of every hook whose name
      starts with "action" when the module is reactive. Such a call empties
      the cache whenever the name reaches `__call`, which is every such hook
      except actionResponse, whose method the class defines. */
  lemma ActionHooksInvalidate(config: Config, entries: map<string, CacheEntry>, h: string)
    requires config.reactive && |h| >= 6 && h[..6] == "action"
    ensures IsInvalidation(config, "hook" + h)
    ensures RouteOf("hook" + h) == ToMagicCall ==> CallSpec(config, entries, "hook" + h) == map[]
  {
  }

  /** With the shipped constants every registered hook other than
      displayHeader and actionResponse reaches `__call` and empties the
      cache, while those two reach their own methods. */
  lemma RegisteredHooksRoute(h: string)
    requires h in INSTALL_HOOKS
    ensures h == "displayHeader" ==> RouteOf("hook" + h) == ToDisplayHeader
    ensures h == "actionResponse" ==> RouteOf("hook" + h) == ToActionResponse
    ensures h != "displayHeader" && h != "actionResponse" ==>
              RouteOf("hook" + h) == ToMagicCall && IsInvalidation(SHIPPED, "hook" + h)
  {
    var name := "hook" + h;
    if h == "displayHeader" {
      forall i | 0 <= i < |name| ensures StrToLower(name)[i] == "hookdisplayheader"[i] {
        if i == 11 { assert name[i] == 'H'; }
      }
    } else if h == "actionResponse" {
      forall i | 0 <= i < |name| ensures StrToLower(name)[i] == "hookactionresponse"[i] {
        if i == 10 { assert name[i] == 'R'; }
      }
    } else {
      ActionHooksInvalidate(SHIPPED, map[], h);
      assert |StrToLower(name)| >= 20;
    }
  }

  /** The write hook, then the read hook on the same eligible request, serves
      the annotated page that was rendered, under the same key. */
  lemma StoreThenServe(config: Config, entries: map<string, CacheEntry>, req: Request,
                       html: string, stamp: string)
    requires IsActive(config, req)
    ensures DisplayHeaderSpec(config, ActionResponseSpec(config, entries, req, html, stamp), req)
            == ServeAndStop(ServedHeaders(config), Annotate(stamp, html))
  {
  }

  /** An ineligible request is never answered from the cache and never
      written to it; read and write eligibility are the same test. */
  lemma IneligibleNeitherReadsNorWrites(config: Config, entries: map<string, CacheEntry>,
                                        req: Request, html: string, stamp: string)
    ensures !IsActive(config, req) ==> DisplayHeaderSpec(config, entries, req) == PassThrough
    ensures !IsActive(config, req) ==> ActionResponseSpec(config, entries, req, html, stamp) == entries
    ensures DisplayHeaderSpec(config, entries, req).ServeAndStop? ==> IsActive(config, req)
  {
  }

  /** A page stored for one request is never served to a request whose URI
      or discriminators differ (ids non-negative): what that other request
      sees is exactly what it saw before the store. */
  lemma NoCrossContextServing(config: Config, entries: map<string, CacheEntry>,
                              writer: Request, reader: Request, html: string, stamp: string)
    requires NonNegative(PartsOf(writer)) && NonNegative(PartsOf(reader))
    requires PartsOf(writer) != PartsOf(reader)
    ensures DisplayHeaderSpec(config, ActionResponseSpec(config, entries, writer, html, stamp), reader)
            == DisplayHeaderSpec(config, entries, reader)
  {
    KeyInjective(PartsOf(writer), PartsOf(reader));
  }

  /** After an invalidating call the cache is empty, every request passes
      through, and a second such call changes nothing. */
  lemma InvalidationEmptiesCache(config: Config, entries: map<string, CacheEntry>,
                                 name: string, req: Request)
    requires IsInvalidation(config, name)
    ensures CallSpec(config, entries, name) == map[]
    ensures Lookup(CallSpec(config, entries, name), KeyOf(req)) == None
    ensures DisplayHeaderSpec(config, CallSpec(config, entries, name), req) == PassThrough
    ensures CallSpec(config, CallSpec(config, entries, name), name) == map[]
  {
  }

  /** Any other name leaves the cache as it was. */
  lemma OtherCallsKeepCache(config: Config, entries: map<string, CacheEntry>, name: string)
    requires !config.reactive || |name| < 10 || StrToLower(name[..10]) != "hookaction"
    ensures CallSpec(config, entries, name) == entries
  {
  }

  /** Under the shipped constants every page the module stores is stored
      with a TTL of one week. */
  lemma StoredForOneWeek(entries: map<string, CacheEntry>, req: Request, html: string, stamp: string)
    ensures StoreSpec(SHIPPED, entries, req, html, stamp)[KeyOf(req)].ttl == 604800
  {
  }

  // ---------------------------------------------------------------------
  // Two visits by the same guest
  // ---------------------------------------------------------------------

  /** First visit misses and stores the rendered page; the second is served
      from the cache without rendering. */
  method RepeatVisit(m: Xtremecache, req: Request, html: string, stamp: string)
    returns (first: HeaderOutcome, second: HeaderOutcome)
    requires IsActive(m.config, req)
    requires KeyOf(req) !in m.cache.entries
    modifies m.cache
    ensures first == PassThrough
    ensures second == ServeAndStop(ServedHeaders(m.config), Annotate(stamp, html))
  {
    first := m.HookDisplayHeader(req);
    m.HookActionResponse(req, html, stamp);
    second := m.HookDisplayHeader(req);
  }

  /** The same two visits with a catalogue update in between: the second
      visit misses again. */
  method InvalidatedRepeatVisit(m: Xtremecache, req: Request, html: string, stamp: string)
    returns (second: HeaderOutcome)
    requires IsActive(m.config, req) && m.config.reactive
    modifies m.cache
    ensures second == PassThrough
  {
    var _ := m.HookDisplayHeader(req);
    m.HookActionResponse(req, html, stamp);
    ActionHooksInvalidate(m.config, m.cache.entries, "actionProductUpdate");
    var _ := m.MagicCall("hook" + "actionProductUpdate", []);
    second := m.HookDisplayHeader(req);
  }
}
