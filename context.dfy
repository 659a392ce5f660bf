/** What the module reads besides the cache: one request's snapshot of
    PrestaShop's context, and the module's class constants. */
module Context {
  import opened PhpRuntime

  /** The fields of `$this->context->cart` that the module reads.
      `nbProducts` is the value `$cart->nbProducts()` returns. */
  datatype Cart = Cart(
    idCustomer: int,
    nbProducts: nat,
    idLang: int,
    idShop: int,
    idCurrency: int)

  /** One request as the hooks see it. Values that PHP reads as `false` or
      `null` when absent (`Configuration::get`, `Tools::getValue`,
      `filter_input`) are `None`. */
  datatype Request = Request(
    debugProfiling: bool,          // _PS_DEBUG_PROFILING_
    devMode: bool,                 // _PS_MODE_DEV_
    isFrontController: bool,       // the controller is a FrontControllerCore
    shopEnable: Option<string>,    // Configuration::get("PS_SHOP_ENABLE")
    ajax: Option<string>,          // Tools::getValue("ajax")
    requestMethod: Option<string>, // $_SERVER["REQUEST_METHOD"]
    requestUri: Option<string>,    // $_SERVER["REQUEST_URI"]
    cart: Cart,
    countryId: int,                // $this->context->country->id
    device: int)                   // $this->context->getDevice()

  /** The class constants. They are read through `static::`, so a subclass
      may redefine them; SHIPPED holds the values the class declares. */
  datatype Config = Config(
    ttl: int,
    reactive: bool,
    customerHeader: bool,
    excludedLangs: seq<int>,
    excludeCountries: seq<int>,
    excludeCurrencies: seq<int>,
    excludeShops: seq<int>)

  /** One week, in seconds. */
  const TTL: int := 3600 * 24 * 7

  const SHIPPED: Config := Config(TTL, true, true, [], [], [], [])
}
