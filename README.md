# Xtremecache, modelled in Dafny

Xtremecache is a full-page cache module for PrestaShop 1.6. It is one class,
`Xtremecache`, with three entry points:

- **`displayHeader` hook (read path).** When the request is eligible and the
  shared cache holds a truthy page under the request's key, the module clears
  the output buffer and sends an `X-Xtremecached: True` header. It then sends
  the stored page and ends the request.
- **`actionResponse` hook (write path).** It checks eligibility again. If the
  request is eligible, it stores `<!-- cached on STAMP -->\n` followed by the
  rendered page under the key, with a TTL of one week.
- **`__call` (invalidation).** Every hook method that the class does not
  define lands here. If the module is reactive and the lower-cased name starts
  with `hookaction`, the whole cache is flushed. Any other name goes to the
  parent class.

The request is eligible only when all of these hold:
- profiling and dev mode are off;
- the controller is a front controller;
- the shop is enabled;
- the request is not AJAX;
- the method is `GET`;
- the customer is a guest and the cart is empty;
- none of the language, shop, currency or country ids is in its exclusion list.

The key joins the request URI with the currency, language, shop, country and
device ids, using `-`.

The Dafny project has these modules:

- `PhpRuntime` (php_runtime.dfy): the PHP built-ins the class depends on.
  These are truthiness, the decimal form of an int, `implode`, ASCII
  `strtolower`, `strpos` and `array_search`.
- `Context` (context.dfy): the request snapshot (`Request`, `Cart`) and the
  class constants (`Config`). `SHIPPED` holds the constants as the class
  declares them. They are read through `static::`, so a subclass may redefine
  them, and the model takes them as a parameter.
- `Eligibility` (eligibility.dfy): `isNotExcluded`, `isActive`, and the same
  conditions listed one at a time.
- `CacheKey` (cache_key.dfy): `key()`, plus a parser that takes a key apart
  from the right. The parser shows that the key determines its parts.
- `PageCache` (page_cache.dfy): PrestaShop's `Cache` as a class over a
  `map<string, CacheEntry>`, with `Get`, `Set` and `Flush`.
- `FullPageCache` (full_page_cache.dfy): the `Xtremecache` class, with the
  hooks as methods over the shared cache. The functions that specify each hook
  and the lemmas about them are in the same module.

Unlike many full-page caches, this module:
- uses the plain joined string as the key, not a hash of it;
- excludes no route (such as checkout) by name, only through the cart and
  customer conditions;
- requires a request to be both a guest's and to have an empty cart;
- decides invalidation by a name-prefix rule, not by a table of events;
- does not check expiry on read itself; that is left to the cache backend.

## Model

| member | source | states |
|---|---|---|
| PhpRuntime.NatToString | xtremecache.php:191-198 | an int piece joins as a non-empty run of digits, with no leading zero |
| PhpRuntime.DigitsRoundTrip | xtremecache.php:191-198 | reading the digits of a non-negative id back gives the id |
| PhpRuntime.IntToString | xtremecache.php:193-197 | a non-negative id renders as digits only; a negative one renders as '-' then digits |
| PhpRuntime.StrToLower | xtremecache.php:129 | the lowered name has the same length and no capitals; non-capitals are kept and each capital moves to its lower-case letter |
| PhpRuntime.StrPosFrom | xtremecache.php:129 | strpos answers the first position where the needle occurs, or false when it occurs nowhere |
| PhpRuntime.StrPosZeroIffPrefix | xtremecache.php:129 | `0 === strpos(h, n)` holds exactly when n is a prefix of h |
| PhpRuntime.ArraySearch | xtremecache.php:210 | array_search answers the first index that holds the id, and false exactly when the id is absent |
| Eligibility.IsNotExcluded | xtremecache.php:208-211 | true exactly when the id does not occur in the exclusion list |
| Eligibility.IsActiveIffNoFailedCondition | xtremecache.php:142-158 | the eligibility test holds exactly when none of the twelve named conditions fails |
| Eligibility.IneligibleRequests | xtremecache.php:142-158 | the test fails for a non-GET method, a truthy ajax value, a logged-in customer, a non-empty cart, profiling or dev mode, a back-office controller, a disabled shop, or any excluded lang, shop, currency or country |
| Eligibility.ShippedExcludesNothing | xtremecache.php:19-29 | with the shipped empty exclusion lists, eligibility does not depend on the lang, shop, currency or country ids |
| CacheKey.KeyLayout | xtremecache.php:189-199 | the key is URI-currency-lang-shop-country-device, joined with '-' |
| CacheKey.SplitFieldsRightOfImplode | xtremecache.php:191-198 | splitting a joined list from the right gives back the last n pieces when they hold no '-' |
| CacheKey.ParseKey | xtremecache.php:189-199 | a key read back has non-negative ids |
| CacheKey.KeyRoundTrip | xtremecache.php:189-199 | for non-negative ids, parsing a request's key gives back its URI and all five ids |
| CacheKey.KeyInjective | xtremecache.php:189-199 | for non-negative ids, two requests get the same key exactly when URI and all five ids agree |
| CacheKey.NegativeIdsCollide | xtremecache.php:189-199 | with a negative id, two different requests can share a key |
| PageCache.Cache.Get | xtremecache.php:167 | get hits exactly when the key is stored, and then answers the stored value |
| PageCache.Cache.Set | xtremecache.php:181 | set replaces the entry for the key with the value and its TTL and keeps every other entry |
| PageCache.Cache.Flush | xtremecache.php:130 | flush leaves no entry |
| FullPageCache.Annotate | xtremecache.php:179 | the stored page is truthy, starts with the annotation comment and ends with the rendered page |
| FullPageCache.AnnotationRoundTrip | xtremecache.php:179 | removing the annotation gives back the time stamp and exactly the rendered page |
| FullPageCache.Xtremecache.constructor | xtremecache.php:35-51 | the module keeps the shared cache instance and its constants |
| FullPageCache.Xtremecache.Load | xtremecache.php:165-168 | load hits exactly when the request's key is stored, and then answers that page |
| FullPageCache.Xtremecache.Store | xtremecache.php:176-182 | store writes the annotated page under the request's key with the configured TTL and changes nothing else |
| FullPageCache.Xtremecache.HookDisplayHeader | xtremecache.php:95-106 | the read hook serves the stored page with the cache header and stops only for an eligible request with a truthy hit; otherwise rendering goes on |
| FullPageCache.Xtremecache.HookActionResponse | xtremecache.php:113-118 | the write hook stores the page for an eligible request and leaves the cache untouched otherwise |
| FullPageCache.Xtremecache.MagicCall | xtremecache.php:127-135 | an invalidating name empties the cache; any other name is handed to the parent and the cache is unchanged |
| FullPageCache.InvalidationIffPrefix | xtremecache.php:129 | a call invalidates exactly when the module is reactive and the first ten characters of the name, lower-cased, are "hookaction" |
| FullPageCache.ActionHooksInvalidate | xtremecache.php:127-135 | when the module is reactive, `__call`'s name test accepts `hook` + any action… hook name, and such a call that reaches `__call` (every one except actionResponse) empties the cache |
| FullPageCache.UninstallRemovesInstalledHooks | xtremecache.php:57-89 | uninstall unregisters exactly the nine hooks install registers, in the same order |
| FullPageCache.RegisteredHooksRoute | xtremecache.php:57-71 | of the registered hooks, displayHeader and actionResponse reach their own methods, and every other one reaches `__call` and flushes |
| FullPageCache.StoreThenServe | xtremecache.php:95-118 | after the write hook on an eligible request, the read hook on the same request serves the annotated page |
| FullPageCache.IneligibleNeitherReadsNorWrites | xtremecache.php:95-118 | an ineligible request is never served from the cache and never written to it |
| FullPageCache.NoCrossContextServing | xtremecache.php:165-199 | storing a page for one request never changes what a request with a different URI or id sees (non-negative ids) |
| FullPageCache.InvalidationEmptiesCache | xtremecache.php:127-135 | after an invalidating call every load misses and every request passes through, and a second call changes nothing |
| FullPageCache.OtherCallsKeepCache | xtremecache.php:127-135 | a name without the hookaction prefix, or a module that is not reactive, leaves the cache as it was |
| FullPageCache.StoredForOneWeek | xtremecache.php:11 | with the shipped constants a stored page carries a TTL of 604800 seconds |
| FullPageCache.RepeatVisit | xtremecache.php:95-118 | for a guest's two visits, the first misses and stores, and the second is served the stored page |
| FullPageCache.InvalidatedRepeatVisit | xtremecache.php:95-135 | with a product update between the two visits, the second visit misses again |

## Left out

- Cache backend: PrestaShop's file or memcache backend behind `Cache::getInstance()` is not part of this model. Only get, set and flush are modelled. The TTL is recorded with each entry, but expiry is not enforced.
- FullPageCache.Xtremecache.Store: does not return the boolean from `Cache::set`. In the model `set` always succeeds, because the backend's failure modes are not visible.
- Output and process control: `ob_clean`, `header` and `die` are modelled as the single outcome `ServeAndStop(headers, body)`. `filter_input` and `Tools::getValue` are fields of the `Request` record.
- `date("Y-m-d H:i:s")`: the time stamp is an opaque string parameter.
- `createHooks` and the database side of `install`/`uninstall`: these go through PrestaShop's Hook storage. Only the two lists of hook names are modelled.
- `parent::__call`: its behaviour lives in PrestaShop's `Module` class. The model only records that the call was handed to the parent.
- override/classes/controller/Controller.php and override/controllers/admin/AdminPerformanceController.php are not part of this model. They are rendering and admin glue. They fire `actionRequestComplete` and `actionEmptySmartyCache`, and `install` registers neither hook. The write hook is modelled as if it were invoked with the rendered page.
- Integer width: ids are unbounded integers. PHP's 64-bit `(int)` cast is not modelled.
- `strtolower`: only ASCII letters are lowered, as in PHP 8.2 and later. Earlier PHP versions, including the PHP 5 and 7 that PrestaShop 1.6 runs on, lower according to the locale.
- `array_search`: it uses loose comparison. Ids and exclusion lists are ints in the model, where loose comparison is plain equality.
- `Tools::getValue("ajax")`: an array value (`ajax[]=…`) is not modelled. A request without a cart is not modelled either.
- Concurrency between requests is not modelled. The source does nothing about it.
- Constructor metadata and translation calls are framework boilerplate.
