/** The products manager as a state machine over values: its fields, the query
    parameters and cache key it derives from them, its result cache, and one transition
    function per operation. The `ProductsManager.Manager` class is proved to follow these
    transitions; the properties of the manager are proved about them.

    `fetchProducts` suspends at the network request, so it is two steps here: `Fetch`
    runs up to the request (guard, parameters, cache lookup; a cache hit is handled at
    once) and `ResolveFetch` runs from the response to the `finally` block. Effects on
    the page and on other modules are appended to an event log. */
module ManagerModel {
  import opened Wrappers
  import opened Js
  import opened OrderedMap
  import Json
  import RenderProducts

  type Product = RenderProducts.Product

  /** `this.filters`: filter name to value, in insertion order. */
  type Filters = OMap<string, Value>

  /** The request parameter object, in insertion order. */
  type Params = OMap<string, Value>

  const CacheTimeout := 300000
  const CacheCapacity := 50
  const DefaultItemsPerPage := 20
  const DefaultSort := "relevance"
  const DefaultDirection := "asc"
  const DefaultCity := "1"
  const LoadErrorMessage := "Ошибка при загрузке товаров"

  /** `response.data`: `products` is `None` when it is missing or null; a missing
      `total` is 0. */
  datatype Payload = Payload(products: Option<seq<Product>>, total: int)

  /** A search response body. */
  datatype Response = Response(success: Value, data: Option<Payload>)

  datatype CacheEntry = CacheEntry(data: Response, timestamp: int)

  /** `this.cache`: cache key to entry, in insertion order. */
  type Cache = OMap<string, CacheEntry>

  /** How the suspended request ends: a parsed body, or a throw (network error,
      HTTP status that is not ok, body that is not JSON). */
  datatype NetResult = Failed | Received(body: Response)

  /** What `saveState` writes to local storage. */
  datatype Snapshot = Snapshot(currentPage: int, itemsPerPage: int, sortColumn: string,
                               sortDirection: string, filters: Filters)

  /** Effects outside the manager's fields, in the order they happen. */
  datatype Event =
    | Saved(snapshot: Snapshot)           // saveState
    | Requested(params: Params)           // makeApiRequest is called
    | RenderedTable(products: seq<Product>) // renderProductsTable over the new products
    | RenderedEmpty                       // renderEmptyState
    | Toast(message: string, isError: bool) // showToast
    | LoadedAvailability(ids: seq<int>)   // loadAvailability from the manager's loadDynamicData

  /** The page around the manager when a request is built: the city selector's value
      (`None` without a selector) and the clock. */
  datatype Env = Env(citySelect: Option<string>, now: int)

  /** The manager's fields. `searchBox` is the search input's text, `debouncePending`
      whether the 300 ms search timer is running, `inFlight` the cache key of the request
      `fetchProducts` is suspended on, and `prevDisabled`/`nextDisabled` the `disabled`
      flags of the page buttons as `updatePagination` last set them (enabled before the
      first result). */
  datatype State = State(
    products: seq<Product>,
    currentPage: int,
    itemsPerPage: int,
    totalProducts: int,
    totalPages: int,
    sortColumn: string,
    sortDirection: string,
    filters: Filters,
    isLoading: bool,
    lastSearchQuery: string,
    cache: Cache,
    searchBox: string,
    debouncePending: bool,
    inFlight: Option<string>,
    prevDisabled: bool,
    nextDisabled: bool,
    events: seq<Event>)

  /** What every reachable state satisfies. */
  ghost predicate Inv(s: State) {
    && s.filters.Valid()
    && s.cache.Valid()
    && s.cache.Size() <= CacheCapacity
    && s.currentPage != 0
    && s.itemsPerPage != 0
    && s.sortColumn != ""
    && s.sortDirection != ""
    && (s.isLoading <==> s.inFlight.Some?)
  }

  /** The fields the constructor sets. */
  function Initial(): (s: State)
    ensures Inv(s)
  {
    State([], 1, DefaultItemsPerPage, 0, 0, DefaultSort, DefaultDirection, Empty(), false, "",
          Empty(), "", false, None, false, false, [])
  }

  // ---------------------------------------------------------------------------
  // Small arithmetic

  function Max(a: int, b: int): int { if a >= b then a else b }
  function Min(a: int, b: int): int { if a <= b then a else b }

  /** `Math.max(1, Math.min(page, totalPages))`. */
  function ClampPage(page: int, totalPages: int): (r: int)
    ensures r >= 1
    ensures 1 <= page <= totalPages ==> r == page
    ensures page < 1 || totalPages < 1 ==> r == 1
    ensures page > totalPages && totalPages >= 1 ==> r == totalPages
  {
    Max(1, Min(page, totalPages))
  }

  /** `Math.ceil(a / d)` for integers. */
  function CeilDiv(a: int, d: int): (r: int)
    requires d != 0
    ensures d > 0 ==> (r - 1) * d < a <= r * d
    ensures d < 0 ==> r * d <= a < (r - 1) * d
  {
    if d > 0 then -((-a) / d) else -(a / (-d))
  }

  // ---------------------------------------------------------------------------
  // Sorting

  /** The sort key a column selects; an unknown column selects `relevance`. */
  function SortKeyFor(column: string): (r: string)
    ensures r != ""
  {
    match column
    case "name" => "name"
    case "external_id" => "external_id"
    case "price" => "price_asc"
    case "availability" => "availability"
    case "orders_count" => "popularity"
    case _ => DefaultSort
  }

  /** The new `sortColumn` after a click on `column`: selecting the price key a second
      time flips its direction. */
  function NextSort(current: string, column: string): string {
    var newSort := SortKeyFor(column);
    if current == newSort && Includes(newSort, "price") then
      (if current == "price_asc" then "price_desc" else "price_asc")
    else newSort
  }

  // ---------------------------------------------------------------------------
  // Request parameters and the cache key

  /** `this.filters[key]`; `undefined` when absent. */
  function FilterValue(f: Filters, key: string): Value {
    f.Get(key).GetOr(Undefined)
  }

  /** The city selector's value, or city `1` without a selector or with an empty value. */
  function CityId(citySelect: Option<string>): (r: string)
    ensures r != ""
    ensures citySelect.Some? && citySelect.value != "" ==> r == citySelect.value
  {
    if citySelect.Some? && citySelect.value != "" then citySelect.value else DefaultCity
  }

  const BaseKeys: seq<string> := ["page", "limit", "sort", "city_id"]

  /** The four parameters every request starts with, in this order. */
  function BaseParams(page: int, limit: int, sort: string, city: string): (p: Params)
    ensures p.Valid() && p.keys == BaseKeys
  {
    OMap(BaseKeys, map["page" := Num(page), "limit" := Num(limit), "sort" := Str(sort), "city_id" := Str(city)])
  }

  /** The search filter also goes out as `q` when it is truthy. */
  function WithSearch(p: Params, f: Filters): Params {
    var search := FilterValue(f, "search");
    if Truthy(search) then p.Set("q", search) else p
  }

  /** The loop over the first `keys` of the filters: every truthy filter other than
      `search` is copied under its own name. */
  function CopyFilters(p: Params, f: Filters, keys: seq<string>): Params {
    if keys == [] then p
    else
      var prior := CopyFilters(p, f, keys[..|keys| - 1]);
      var k := keys[|keys| - 1];
      var v := FilterValue(f, k);
      if k != "search" && Truthy(v) then prior.Set(k, v) else prior
  }

  /** The parameter object `fetchProducts` builds from the state. */
  function QueryParams(s: State, citySelect: Option<string>): Params {
    var base := BaseParams(s.currentPage, s.itemsPerPage, s.sortColumn, CityId(citySelect));
    CopyFilters(WithSearch(base, s.filters), s.filters, s.filters.keys)
  }

  /** `JSON.stringify(params)`. */
  function CacheKey(p: Params): string {
    Json.Stringify(p)
  }

  // ---------------------------------------------------------------------------
  // The result cache

  /** `getFromCache(key)` at time `now`: the stored response when the entry is younger
      than the timeout; otherwise no response, and the key is deleted. */
  function CacheLookup(c: Cache, key: string, now: int): (Option<Response>, Cache) {
    match c.Get(key)
    case Some(entry) =>
      if now - entry.timestamp < CacheTimeout then (Some(entry.data), c) else (None, c.Delete(key))
    case None => (None, c.Delete(key))
  }

  /** `saveToCache(key, data)` at time `now`: store, then drop the earliest key when the
      cache has grown past its capacity. */
  function CacheStore(c: Cache, key: string, data: Response, now: int): Cache {
    var stored := c.Set(key, CacheEntry(data, now));
    if stored.Size() > CacheCapacity then stored.Delete(stored.keys[0]) else stored
  }

  // ---------------------------------------------------------------------------
  // Fetching and result handling

  /** The manager's `loadDynamicData` ids: the product ids greater than 0, in product
      order. */
  function PositiveIds(ps: seq<Product>): (ids: seq<int>)
    ensures forall i :: 0 <= i < |ids| ==> ids[i] > 0
    ensures forall n :: n in ids <==> exists i :: 0 <= i < |ps| && ps[i].productId == Some(n) && n > 0
  {
    if ps == [] then []
    else
      var rest := PositiveIds(ps[1..]);
      assert forall i :: 0 <= i < |ps[1..]| ==> ps[1..][i] == ps[i + 1];
      match ps[0].productId
      case Some(n) => if n > 0 then [n] + rest else rest
      case None => rest
  }

  /** `handleSearchResult(response)`. */
  function HandleResult(s: State, r: Response): (t: State)
    requires s.itemsPerPage != 0
    ensures t.itemsPerPage == s.itemsPerPage
  {
    if Truthy(r.success) && r.data.Some? then
      var products := r.data.value.products.GetOr([]);
      var total := r.data.value.total;
      var ids := PositiveIds(products);
      var enrich := if |products| > 0 && |ids| > 0 then [LoadedAvailability(ids)] else [];
      var taken := s.(products := products, totalProducts := total, totalPages := CeilDiv(total, s.itemsPerPage));
      UpdatePagination(taken).(events := s.events + [RenderedTable(products)] + enrich)
    else
      s.(events := s.events + [RenderedEmpty])
  }

  /** `fetchProducts()` up to the network request. */
  function Fetch(s: State, env: Env): (t: State)
    requires s.itemsPerPage != 0
    ensures t.itemsPerPage == s.itemsPerPage
  {
    if s.isLoading then s
    else
      var params := QueryParams(s, env.citySelect);
      var key := CacheKey(params);
      var (hit, cache) := CacheLookup(s.cache, key, env.now);
      match hit
      case Some(response) => HandleResult(s.(cache := cache), response)
      case None =>
        s.(cache := cache, isLoading := true, inFlight := Some(key), events := s.events + [Requested(params)])
  }

  /** `fetchProducts()` from the response of its request to its `finally` block. */
  function ResolveFetch(s: State, net: NetResult, now: int): State
    requires s.inFlight.Some? && s.itemsPerPage != 0
  {
    var key := s.inFlight.value;
    var handled :=
      match net
      case Received(r) => HandleResult(s.(cache := CacheStore(s.cache, key, r, now)), r)
      case Failed => s.(events := s.events + [Toast(LoadErrorMessage, true), RenderedEmpty]);
    handled.(isLoading := false, inFlight := None)
  }

  /** The record `saveState` stores. */
  function SnapshotOf(s: State): Snapshot {
    Snapshot(s.currentPage, s.itemsPerPage, s.sortColumn, s.sortDirection, s.filters)
  }

  /** The common tail of every mutation: `saveState(); fetchProducts();`. */
  function Commit(s: State, env: Env): State
    requires s.itemsPerPage != 0
  {
    Fetch(s.(events := s.events + [Saved(SnapshotOf(s))]), env)
  }

  // ---------------------------------------------------------------------------
  // Mutations

  /** `changePage(page)`. */
  function ChangePage(s: State, page: int, env: Env): State
    requires s.itemsPerPage != 0
  {
    var p := ClampPage(page, s.totalPages);
    if p == s.currentPage then s else Commit(s.(currentPage := p), env)
  }

  /** `changeItemsPerPage(size)`. */
  function ChangeItemsPerPage(s: State, size: int, env: Env): State
    requires size != 0 && s.itemsPerPage != 0
  {
    if size == s.itemsPerPage then s else Commit(s.(itemsPerPage := size, currentPage := 1), env)
  }

  /** `handleSearch(query)`. */
  function HandleSearch(s: State, query: string, env: Env): State
    requires s.itemsPerPage != 0
  {
    var q := Trim(query);
    if q == s.lastSearchQuery then s
    else
      var filters := if q != "" then s.filters.Set("search", Str(q)) else s.filters.Delete("search");
      Commit(s.(lastSearchQuery := q, filters := filters, currentPage := 1), env)
  }

  /** `sortProducts(column)`. */
  function SortProducts(s: State, column: string, env: Env): State
    requires s.itemsPerPage != 0
  {
    Commit(s.(sortColumn := NextSort(s.sortColumn, column), currentPage := 1), env)
  }

  /** `handleFilterChange(name, value)`. */
  function HandleFilterChange(s: State, name: string, value: Value, env: Env): State
    requires s.itemsPerPage != 0
  {
    var filters := if Truthy(value) then s.filters.Set(name, value) else s.filters.Delete(name);
    Commit(s.(filters := filters, currentPage := 1), env)
  }

  /** `removeFilter(name)`. */
  function RemoveFilter(s: State, name: string, env: Env): State
    requires s.itemsPerPage != 0
  {
    Commit(s.(filters := s.filters.Delete(name), currentPage := 1), env)
  }

  /** `clearAllFilters()`; the search box is emptied too. */
  function ClearAllFilters(s: State, env: Env): State
    requires s.itemsPerPage != 0
  {
    Commit(s.(filters := Empty(), lastSearchQuery := "", searchBox := "", currentPage := 1), env)
  }

  /** The city selector's change handler: `clearCache(); fetchProducts();`. */
  function CityChanged(s: State, env: Env): State
    requires s.itemsPerPage != 0
  {
    Fetch(s.(cache := Empty()), env)
  }

  // ---------------------------------------------------------------------------
  // Restoring state and the start-up sequence

  /** The fields of a parsed saved state; `None` is a missing field. */
  datatype SavedRecord = SavedRecord(currentPage: Option<int>, itemsPerPage: Option<int>,
                                     sortColumn: Option<string>, sortDirection: Option<string>,
                                     filters: Option<Filters>)

  /** What local storage holds under the state key: nothing (or the empty text), text
      that `JSON.parse` rejects or that parses to `null`, or a parsed record. */
  datatype Stored = NothingStored | Unparsable | Parsed(record: SavedRecord)

  /** A numeric field, or the fallback when it is missing or 0. */
  function OrInt(v: Option<int>, fallback: int): (r: int)
    ensures v.Some? && v.value != 0 ==> r == v.value
    ensures v.None? || v.value == 0 ==> r == fallback
  {
    if v.Some? && v.value != 0 then v.value else fallback
  }

  /** A text field, or the fallback when it is missing or empty. */
  function OrText(v: Option<string>, fallback: string): (r: string)
    ensures v.Some? && v.value != "" ==> r == v.value
    ensures v.None? || v.value == "" ==> r == fallback
  {
    if v.Some? && v.value != "" then v.value else fallback
  }

  /** `restoreState()`. */
  function Restore(s: State, stored: Stored): State {
    match stored
    case Parsed(rec) =>
      s.(currentPage := OrInt(rec.currentPage, 1),
         itemsPerPage := OrInt(rec.itemsPerPage, DefaultItemsPerPage),
         sortColumn := OrText(rec.sortColumn, DefaultSort),
         sortDirection := OrText(rec.sortDirection, DefaultDirection),
         filters := rec.filters.GetOr(Empty()))
    case _ => s
  }

  /** The saved state of a snapshot, as parsed back. */
  function RecordOf(snap: Snapshot): SavedRecord {
    SavedRecord(Some(snap.currentPage), Some(snap.itemsPerPage), Some(snap.sortColumn),
                Some(snap.sortDirection), Some(snap.filters))
  }

  /** `checkUrlParams()` given the URL's `search` parameter: a non-empty one becomes
      the search filter, the last query and the search box's text. */
  function ApplyUrlSearch(s: State, searchParam: Option<string>): State {
    if searchParam.Some? && searchParam.value != "" then
      s.(filters := s.filters.Set("search", Str(searchParam.value)),
         lastSearchQuery := searchParam.value, searchBox := searchParam.value)
    else s
  }

  /** `init()`: restore, apply the URL, and fetch when the product table is on the
      page. */
  function Init(s: State, stored: Stored, searchParam: Option<string>, hasTable: bool, env: Env): State
    requires s.itemsPerPage != 0
  {
    var t := ApplyUrlSearch(Restore(s, stored), searchParam);
    if hasTable then Fetch(t, env) else t
  }

  // ---------------------------------------------------------------------------
  // Input events

  /** An `input` event: the box takes the text and the search timer restarts. */
  function SearchTyped(s: State, text: string): State {
    s.(searchBox := text, debouncePending := true)
  }

  /** The search timer fires and searches for the box's current text. */
  function DebounceFired(s: State, env: Env): State
    requires s.debouncePending && s.itemsPerPage != 0
  {
    HandleSearch(s.(debouncePending := false), s.searchBox, env)
  }

  /** Enter in the search box: the timer is cancelled and the search runs at once. */
  function SearchEnter(s: State, env: Env): State
    requires s.itemsPerPage != 0
  {
    HandleSearch(s.(debouncePending := false), s.searchBox, env)
  }

  /** The search button: searches for the box's text; a running timer is left alone. */
  function SearchButton(s: State, env: Env): State
    requires s.itemsPerPage != 0
  {
    HandleSearch(s, s.searchBox, env)
  }

  /** The page an Enter in a page input asks for: the parsed text, or 1 when it does not parse or is 0. */
  function PageFromText(text: string): (page: int)
    ensures page != 0
    ensures ParseIntText(text).Some? && ParseIntText(text).value != 0 ==> page == ParseIntText(text).value
    ensures ParseIntText(text).None? || ParseIntText(text).value == 0 ==> page == 1
  {
    OrInt(ParseIntText(text), 1)
  }

  function PageEntered(s: State, text: string, env: Env): State
    requires s.itemsPerPage != 0
  {
    ChangePage(s, PageFromText(text), env)
  }

  function PrevClicked(s: State, env: Env): State
    requires s.itemsPerPage != 0
  {
    ChangePage(s, s.currentPage - 1, env)
  }

  function NextClicked(s: State, env: Env): State
    requires s.itemsPerPage != 0
  {
    ChangePage(s, s.currentPage + 1, env)
  }

  /** `updatePagination()`: the button flags follow the page and the page count. */
  function UpdatePagination(s: State): State {
    s.(prevDisabled := PrevDisabled(s), nextDisabled := NextDisabled(s))
  }

  /** `updatePagination`: the previous-page buttons are disabled on the first page. */
  predicate PrevDisabled(s: State) {
    s.currentPage <= 1
  }

  /** `updatePagination`: the next-page buttons are disabled on the last page. */
  predicate NextDisabled(s: State) {
    s.currentPage >= s.totalPages
  }
}
