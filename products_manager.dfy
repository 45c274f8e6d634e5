/** The `ProductsManager` object: its fields, updated in place by its methods, each
    proved to follow the matching transition of `ManagerModel` and to keep the
    manager's invariant. The page's effects (saved state, requests, renders, toasts,
    availability loads) are recorded in the ghost log `events`. */
module ProductsManager {
  import opened Wrappers
  import opened Js
  import opened OrderedMap
  import opened ManagerModel
  import Json
  import ManagerProperties

  class Manager {
    var products: seq<Product>
    var currentPage: int
    var itemsPerPage: int
    var totalProducts: int
    var totalPages: int
    var sortColumn: string
    var sortDirection: string
    var filters: Filters
    var isLoading: bool
    var lastSearchQuery: string
    var cache: Cache
    /** The search input's text. */
    var searchBox: string
    /** Whether the search debounce timer is running. */
    var debouncePending: bool
    /** The cache key of the request the suspended `fetchProducts` waits on. */
    var inFlight: Option<string>
    /** The `disabled` flags of the previous- and next-page buttons. */
    var prevDisabled: bool
    var nextDisabled: bool
    ghost var events: seq<Event>

    /** The fields as a value of the model. */
    ghost function Model(): State
      reads this
    {
      State(products, currentPage, itemsPerPage, totalProducts, totalPages, sortColumn,
            sortDirection, filters, isLoading, lastSearchQuery, cache, searchBox,
            debouncePending, inFlight, prevDisabled, nextDisabled, events)
    }

    ghost predicate Valid()
      reads this
    {
      Inv(Model())
    }

    constructor ()
      ensures Model() == Initial() && Valid()
    {
      products := [];
      currentPage := 1;
      itemsPerPage := DefaultItemsPerPage;
      totalProducts := 0;
      totalPages := 0;
      sortColumn := DefaultSort;
      sortDirection := DefaultDirection;
      filters := Empty();
      isLoading := false;
      lastSearchQuery := "";
      cache := Empty();
      searchBox := "";
      debouncePending := false;
      inFlight := None;
      prevDisabled := false;
      nextDisabled := false;
      events := [];
    }

    // -------------------------------------------------------------------------
    // Cache

    /** `getFromCache(key)`. */
    method GetFromCache(key: string, now: int) returns (hit: Option<Response>)
      modifies this
      ensures (hit, cache) == CacheLookup(old(cache), key, now)
      ensures Model() == old(Model()).(cache := cache)
    {
      var entry := cache.Get(key);
      if entry.Some? && now - entry.value.timestamp < CacheTimeout {
        return Some(entry.value.data);
      }
      cache := cache.Delete(key);
      hit := None;
    }

    /** `saveToCache(key, data)`. */
    method SaveToCache(key: string, data: Response, now: int)
      modifies this
      ensures Model() == old(Model()).(cache := CacheStore(old(cache), key, data, now))
    {
      cache := cache.Set(key, CacheEntry(data, now));
      if cache.Size() > CacheCapacity {
        var firstKey := cache.keys[0];
        cache := cache.Delete(firstKey);
      }
    }

    /** `clearCache()`. */
    method ClearCache()
      modifies this
      ensures Model() == old(Model()).(cache := Empty())
      ensures cache.Size() == 0
    {
      cache := Empty();
    }

    // -------------------------------------------------------------------------
    // Fetching

    /** The parameter object of `fetchProducts`, filters copied by a loop over the
      filter keys. Changes nothing. */
    method BuildParams(citySelect: Option<string>) returns (params: Params)
      ensures params == QueryParams(Model(), citySelect)
    {
      var start := BaseParams(currentPage, itemsPerPage, sortColumn, CityId(citySelect));
      var search := FilterValue(filters, "search");
      if Truthy(search) {
        start := start.Set("q", search);
      }
      params := start;
      var keys := filters.keys;
      var i := 0;
      while i < |keys|
        invariant 0 <= i <= |keys|
        invariant params == CopyFilters(start, filters, keys[..i])
      {
        var key := keys[i];
        var value := FilterValue(filters, key);
        if key != "search" && Truthy(value) {
          params := params.Set(key, value);
        }
        assert keys[..i + 1][..i] == keys[..i];
        i := i + 1;
      }
      assert keys[..|keys|] == keys;
    }

    /** `saveState()`: the snapshot goes to local storage. */
    method SaveState()
      modifies this
      ensures Model() == old(Model()).(events := old(events) + [Saved(SnapshotOf(old(Model())))])
    {
      events := events + [Saved(Snapshot(currentPage, itemsPerPage, sortColumn, sortDirection, filters))];
    }

    /** `renderEmptyState()`. */
    method RenderEmptyState()
      modifies this
      ensures Model() == old(Model()).(events := old(events) + [RenderedEmpty])
    {
      events := events + [RenderedEmpty];
    }

    /** The manager's `loadDynamicData()`: availability for the positive ids, if any. */
    method LoadDynamicData()
      modifies this
      ensures var ids := PositiveIds(products);
              Model() == old(Model()).(events := old(events) + if ids == [] then [] else [LoadedAvailability(ids)])
    {
      var ids := PositiveIds(products);
      if |ids| == 0 {
        return;
      }
      events := events + [LoadedAvailability(ids)];
    }

    /** `updatePagination()`: the button flags; the inputs' texts are not modelled. */
    method UpdatePagination()
      modifies this
      ensures Model() == ManagerModel.UpdatePagination(old(Model()))
    {
      prevDisabled := currentPage <= 1;
      nextDisabled := currentPage >= totalPages;
    }

    /** `handleSearchResult(response)`. */
    method HandleSearchResult(response: Response)
      requires itemsPerPage != 0
      modifies this
      ensures Model() == HandleResult(old(Model()), response)
    {
      if Truthy(response.success) && response.data.Some? {
        var data := response.data.value;
        products := data.products.GetOr([]);
        totalProducts := data.total;
        totalPages := CeilDiv(totalProducts, itemsPerPage);
        events := events + [RenderedTable(products)];
        UpdatePagination();
        if |products| > 0 {
          LoadDynamicData();
        }
      } else {
        RenderEmptyState();
      }
    }

    /** `fetchProducts()` up to the awaited request. */
    method FetchProducts(env: Env)
      requires itemsPerPage != 0
      modifies this
      ensures Model() == Fetch(old(Model()), env)
    {
      if isLoading {
        return;
      }
      isLoading := true;
      var params := BuildParams(env.citySelect);
      var cacheKey := Json.Stringify(params);
      var cached := GetFromCache(cacheKey, env.now);
      if cached.Some? {
        ServeCached(cached.value);
        return;
      }
      events := events + [Requested(params)];
      inFlight := Some(cacheKey);
    }

    /** The cache-hit path of `fetchProducts()`: the cached response is handled while
      the loading flag is up, then the `finally` block lowers it. Handling does not
      read the flag, so this is handling with the flag down. */
    method ServeCached(response: Response)
      requires itemsPerPage != 0 && isLoading
      modifies this
      ensures Model() == HandleResult(old(Model()).(isLoading := false), response)
    {
      ghost var before := Model();
      HandleSearchResult(response);
      isLoading := false;
      ManagerProperties.HandleResultIgnoresLoading(before.(isLoading := false), response, true);
      assert before.(isLoading := false).(isLoading := true) == before;
    }

    /** The success path of `fetchProducts()`: the response is stored under its key and
      handled, then the `finally` block lowers the loading flag. */
    method ResolveReceived(response: Response, now: int)
      requires itemsPerPage != 0 && inFlight.Some?
      modifies this
      ensures Model() == ManagerModel.ResolveFetch(old(Model()), Received(response), now)
    {
      var cacheKey := inFlight.value;
      SaveToCache(cacheKey, response, now);
      HandleSearchResult(response);
      isLoading := false;
      inFlight := None;
    }

    /** The failure path of `fetchProducts()`: an error toast and the empty state. */
    method ResolveFailed(now: int)
      requires itemsPerPage != 0 && inFlight.Some?
      modifies this
      ensures Model() == ManagerModel.ResolveFetch(old(Model()), Failed, now)
    {
      events := events + [Toast(LoadErrorMessage, true)];
      RenderEmptyState();
      isLoading := false;
      inFlight := None;
    }

    /** `fetchProducts()` from the awaited response to the `finally` block. */
    method ResolveFetch(net: NetResult, now: int)
      requires Valid() && isLoading
      modifies this
      ensures Model() == ManagerModel.ResolveFetch(old(Model()), net, now)
      ensures Valid() && !isLoading
    {
      ghost var before := Model();
      if net.Received? {
        ResolveReceived(net.body, now);
      } else {
        ResolveFailed(now);
      }
      ManagerProperties.ResolveKeepsInv(before, net, now);
    }

    // -------------------------------------------------------------------------
    // Mutations

    /** `changePage(page)`. */
    method ChangePage(page: int, env: Env)
      requires Valid()
      modifies this
      ensures Model() == ManagerModel.ChangePage(old(Model()), page, env)
      ensures Valid()
    {
      ghost var before := Model();
      var p := Max(1, Min(page, totalPages));
      if p != currentPage {
        currentPage := p;
        SaveState();
        FetchProducts(env);
      }
      ManagerProperties.PageFacts(before, page, env);
    }

    /** `changeItemsPerPage(size)`. */
    method ChangeItemsPerPage(size: int, env: Env)
      requires Valid() && size != 0
      modifies this
      ensures Model() == ManagerModel.ChangeItemsPerPage(old(Model()), size, env)
      ensures Valid()
    {
      ghost var before := Model();
      if size != itemsPerPage {
        itemsPerPage := size;
        currentPage := 1;
        SaveState();
        FetchProducts(env);
      }
      ManagerProperties.PageSizeFacts(before, size, env);
    }

    /** `handleSearch(query)`. */
    method HandleSearch(query: string, env: Env)
      requires Valid()
      modifies this
      ensures Model() == ManagerModel.HandleSearch(old(Model()), query, env)
      ensures Valid()
    {
      ghost var before := Model();
      var q := Trim(query);
      if q != lastSearchQuery {
        ApplySearch(q, env);
      }
      ManagerProperties.SearchFacts(before, query, env);
    }

    /** The branch of `handleSearch` taken for a new term: store it, save, fetch. */
    method ApplySearch(q: string, env: Env)
      requires itemsPerPage != 0
      modifies this
      ensures Model() == Commit(old(Model()).(lastSearchQuery := q, currentPage := 1,
        filters := if q != "" then old(filters).Set("search", Str(q)) else old(filters).Delete("search")), env)
    {
      ghost var before := Model();
      lastSearchQuery := q;
      if q != "" {
        filters := filters.Set("search", Str(q));
      } else {
        filters := filters.Delete("search");
      }
      currentPage := 1;
      assert Model() == before.(lastSearchQuery := q, currentPage := 1, filters := filters);
      SaveState();
      FetchProducts(env);
    }

    /** `sortProducts(column)`. */
    method SortProducts(column: string, env: Env)
      requires Valid()
      modifies this
      ensures Model() == ManagerModel.SortProducts(old(Model()), column, env)
      ensures Valid()
    {
      ghost var before := Model();
      var newSort := SortKeyFor(column);
      if sortColumn == newSort && Includes(newSort, "price") {
        sortColumn := if sortColumn == "price_asc" then "price_desc" else "price_asc";
      } else {
        sortColumn := newSort;
      }
      currentPage := 1;
      SaveState();
      FetchProducts(env);
      ManagerProperties.SortFacts(before, column, env);
    }

    /** `handleFilterChange(name, value)`. */
    method HandleFilterChange(name: string, value: Value, env: Env)
      requires Valid()
      modifies this
      ensures Model() == ManagerModel.HandleFilterChange(old(Model()), name, value, env)
      ensures Valid()
    {
      ghost var before := Model();
      if Truthy(value) {
        filters := filters.Set(name, value);
      } else {
        filters := filters.Delete(name);
      }
      currentPage := 1;
      SaveState();
      FetchProducts(env);
      ManagerProperties.FilterChangeFacts(before, name, value, env);
    }

    /** `removeFilter(name)`. */
    method RemoveFilter(name: string, env: Env)
      requires Valid()
      modifies this
      ensures Model() == ManagerModel.RemoveFilter(old(Model()), name, env)
      ensures Valid()
    {
      ghost var before := Model();
      filters := filters.Delete(name);
      currentPage := 1;
      SaveState();
      FetchProducts(env);
      ManagerProperties.RemoveFacts(before, name, env);
    }

    /** `clearAllFilters()`. */
    method ClearAllFilters(env: Env)
      requires Valid()
      modifies this
      ensures Model() == ManagerModel.ClearAllFilters(old(Model()), env)
      ensures Valid()
    {
      ghost var before := Model();
      filters := Empty();
      lastSearchQuery := "";
      searchBox := "";
      currentPage := 1;
      assert Model() == before.(filters := Empty(), lastSearchQuery := "", searchBox := "", currentPage := 1);
      SaveState();
      FetchProducts(env);
      ManagerProperties.ClearAllFacts(before, env);
    }

    /** The city selector's change handler. */
    method CityChanged(env: Env)
      requires Valid()
      modifies this
      ensures Model() == ManagerModel.CityChanged(old(Model()), env)
      ensures Valid()
    {
      ghost var before := Model();
      ClearCache();
      FetchProducts(env);
      ManagerProperties.CityFacts(before, env);
    }

    // -------------------------------------------------------------------------
    // Input events

    /** An `input` event in the search box. */
    method OnSearchInput(text: string)
      requires Valid()
      modifies this
      ensures Model() == SearchTyped(old(Model()), text)
      ensures Valid()
    {
      searchBox := text;
      debouncePending := true;
    }

    /** The debounce timer fires. */
    method OnDebounceTimer(env: Env)
      requires Valid() && debouncePending
      modifies this
      ensures Model() == DebounceFired(old(Model()), env)
      ensures Valid()
    {
      debouncePending := false;
      HandleSearch(searchBox, env);
    }

    /** Enter in the search box. */
    method OnSearchEnter(env: Env)
      requires Valid()
      modifies this
      ensures Model() == SearchEnter(old(Model()), env)
      ensures Valid()
    {
      debouncePending := false;
      HandleSearch(searchBox, env);
    }

    /** A click on the search button. */
    method OnSearchButton(env: Env)
      requires Valid()
      modifies this
      ensures Model() == SearchButton(old(Model()), env)
      ensures Valid()
    {
      HandleSearch(searchBox, env);
    }

    /** Enter in a page input. */
    method OnPageInputEnter(text: string, env: Env)
      requires Valid()
      modifies this
      ensures Model() == PageEntered(old(Model()), text, env)
      ensures Valid()
    {
      var parsed := ParseIntText(text);
      var page := if parsed.Some? && parsed.value != 0 then parsed.value else 1;
      ChangePage(page, env);
    }

    /** A click on a previous-page button, which a disabled button does not receive. */
    method OnPrevClick(env: Env)
      requires Valid() && !prevDisabled
      modifies this
      ensures Model() == PrevClicked(old(Model()), env)
      ensures Valid()
    {
      ChangePage(currentPage - 1, env);
    }

    /** A click on a next-page button, which a disabled button does not receive. */
    method OnNextClick(env: Env)
      requires Valid() && !nextDisabled
      modifies this
      ensures Model() == NextClicked(old(Model()), env)
      ensures Valid()
    {
      ChangePage(currentPage + 1, env);
    }

    // -------------------------------------------------------------------------
    // Start-up

    /** `restoreState()` from what local storage holds. */
    method RestoreState(stored: Stored)
      requires Valid() && ManagerProperties.WellFormed(stored)
      modifies this
      ensures Model() == Restore(old(Model()), stored)
      ensures Valid()
    {
      ghost var before := Model();
      if stored.Parsed? {
        var rec := stored.record;
        currentPage := OrInt(rec.currentPage, 1);
        itemsPerPage := OrInt(rec.itemsPerPage, DefaultItemsPerPage);
        sortColumn := OrText(rec.sortColumn, DefaultSort);
        sortDirection := OrText(rec.sortDirection, DefaultDirection);
        filters := rec.filters.GetOr(Empty());
      }
      ManagerProperties.RestoreKeepsInv(before, stored);
    }

    /** `checkUrlParams()` given the URL's `search` parameter. */
    method CheckUrlParams(searchParam: Option<string>)
      requires Valid()
      modifies this
      ensures Model() == ApplyUrlSearch(old(Model()), searchParam)
      ensures Valid()
    {
      if searchParam.Some? && searchParam.value != "" {
        SetSpec(filters, "search", Str(searchParam.value));
        filters := filters.Set("search", Str(searchParam.value));
        lastSearchQuery := searchParam.value;
        searchBox := searchParam.value;
      }
    }

    /** `init()`. */
    method Init(stored: Stored, searchParam: Option<string>, hasTable: bool, env: Env)
      requires Valid() && ManagerProperties.WellFormed(stored)
      modifies this
      ensures Model() == ManagerModel.Init(old(Model()), stored, searchParam, hasTable, env)
      ensures Valid()
    {
      RestoreState(stored);
      CheckUrlParams(searchParam);
      if hasTable {
        ghost var before := Model();
        FetchProducts(env);
        ManagerProperties.FetchFacts(before, env);
      }
    }
  }
}
