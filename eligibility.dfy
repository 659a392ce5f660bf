/** Whether the current page may be served from, or written to, the cache. */
module Eligibility {
  import opened PhpRuntime
  import opened Context

  /** `array_search($id, $pool) === false`: the id is not in the exclusion list. */
  function IsNotExcluded(id: int, pool: seq<int>): (r: bool)
    ensures r <==> id !in pool
  {
    ArraySearch(id, pool) == None
  }

  /** The module's eligibility test, one conjunct per condition, in the
      order the module evaluates them. */
  function IsActive(config: Config, req: Request): bool
  {
    && !req.debugProfiling
    && !req.devMode
    && req.isFrontController
    && Truthy(req.shopEnable)
    && !Truthy(req.ajax)
    && req.requestMethod == Some("GET")
    && req.cart.idCustomer < 1
    && req.cart.nbProducts < 1
    && IsNotExcluded(req.cart.idLang, config.excludedLangs)
    && IsNotExcluded(req.cart.idShop, config.excludeShops)
    && IsNotExcluded(req.cart.idCurrency, config.excludeCurrencies)
    && IsNotExcluded(req.countryId, config.excludeCountries)
  }

  /** The same conditions, named one by one so that each can be checked alone. */
  datatype Condition =
    | NotProfiling | NotDevMode | FrontOffice | ShopEnabled | NotAjax | GetMethod
    | Guest | EmptyCart | LangAllowed | ShopAllowed | CurrencyAllowed | CountryAllowed

  const ALL_CONDITIONS: set<Condition> := {
    NotProfiling, NotDevMode, FrontOffice, ShopEnabled, NotAjax, GetMethod,
    Guest, EmptyCart, LangAllowed, ShopAllowed, CurrencyAllowed, CountryAllowed }

  predicate Holds(c: Condition, config: Config, req: Request)
  {
    match c
    case NotProfiling => !req.debugProfiling
    case NotDevMode => !req.devMode
    case FrontOffice => req.isFrontController
    case ShopEnabled => req.shopEnable.Some? && req.shopEnable.value !in {"", "0"}
    case NotAjax => req.ajax.None? || req.ajax.value in {"", "0"}
    case GetMethod => req.requestMethod.Some? && req.requestMethod.value == "GET"
    case Guest => req.cart.idCustomer <= 0
    case EmptyCart => req.cart.nbProducts == 0
    case LangAllowed => req.cart.idLang !in config.excludedLangs
    case ShopAllowed => req.cart.idShop !in config.excludeShops
    case CurrencyAllowed => req.cart.idCurrency !in config.excludeCurrencies
    case CountryAllowed => req.countryId !in config.excludeCountries
  }

  /** The conditions a request fails. */
  function Failed(config: Config, req: Request): set<Condition>
  {
    set c | c in ALL_CONDITIONS && !Holds(c, config, req)
  }

  /** The module's test admits a request exactly when it fails no condition. */
  lemma IsActiveIffNoFailedCondition(config: Config, req: Request)
    ensures IsActive(config, req) <==> Failed(config, req) == {}
  {
    if IsActive(config, req) {
      forall c | c in ALL_CONDITIONS ensures Holds(c, config, req) { }
    } else {
      var c: Condition :|
        c in ALL_CONDITIONS && !Holds(c, config, req);
      assert c in Failed(config, req);
    }
  }

  /** Each kind of request the module refuses to cache. */
  lemma IneligibleRequests(config: Config, req: Request)
    ensures req.requestMethod != Some("GET") ==> !IsActive(config, req)
    ensures Truthy(req.ajax) ==> !IsActive(config, req)
    ensures req.cart.idCustomer >= 1 ==> !IsActive(config, req)
    ensures req.cart.nbProducts >= 1 ==> !IsActive(config, req)
    ensures req.debugProfiling || req.devMode ==> !IsActive(config, req)
    ensures !req.isFrontController || !Truthy(req.shopEnable) ==> !IsActive(config, req)
    ensures req.cart.idLang in config.excludedLangs ==> !IsActive(config, req)
    ensures req.cart.idShop in config.excludeShops ==> !IsActive(config, req)
    ensures req.cart.idCurrency in config.excludeCurrencies ==> !IsActive(config, req)
    ensures req.countryId in config.excludeCountries ==> !IsActive(config, req)
  {
  }

  /** With the constants as shipped no id is excluded: eligibility does not
      depend on the language, shop, currency or country at all. */
  lemma ShippedExcludesNothing(req: Request, lang: int, shop: int, currency: int, country: int)
    ensures IsActive(SHIPPED, req) ==
            IsActive(SHIPPED, req.(cart := req.cart.(idLang := lang, idShop := shop, idCurrency := currency),
                                   countryId := country))
  {
  }
}
