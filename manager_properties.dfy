/** What the products manager promises, proved about the transitions of `ManagerModel`. */
module ManagerProperties {
  import opened Wrappers
  import opened Js
  import opened OrderedMap
  import opened ManagerModel
  import RenderProducts
  import Json

  /** Everything the user's inputs determine: the saved snapshot, the last query, the
      search box and the search timer. Fetching and result handling leave it alone. */
  function Inputs(s: State): (Snapshot, string, string, bool) {
    (SnapshotOf(s), s.lastSearchQuery, s.searchBox, s.debouncePending)
  }

  /** How many requests an event log records. */
  function Requests(es: seq<Event>): nat {
    if es == [] then 0
    else Requests(es[..|es| - 1]) + (if es[|es| - 1].Requested? then 1 else 0)
  }

  lemma {:induction false} RequestsAppend(a: seq<Event>, b: seq<Event>)
    ensures Requests(a + b) == Requests(a) + Requests(b)
    decreases |b|
  {
    if b == [] {
      assert a + b == a;
    } else {
      var c := b[..|b| - 1];
      assert (a + b)[..|a + b| - 1] == a + c;
      assert (a + b)[|a + b| - 1] == b[|b| - 1];
      RequestsAppend(a, c);
    }
  }

  /** `r`'s log extends `s`'s. */
  ghost predicate Extends(s: State, r: State) {
    |r.events| >= |s.events| && r.events[..|s.events|] == s.events
  }

  // ---------------------------------------------------------------------------
  // Result handling

  /** A log without requests counts none. */
  lemma {:induction false} NoRequests(es: seq<Event>)
    requires forall i :: 0 <= i < |es| ==> !es[i].Requested?
    ensures Requests(es) == 0
  {
    if es != [] {
      NoRequests(es[..|es| - 1]);
    }
  }

  /** `handleSearchResult` leaves the inputs, the cache and the loading flag alone,
      records at least one effect and issues no request. */
  lemma HandleResultKeeps(s: State, r: Response)
    requires s.itemsPerPage != 0
    ensures var t := HandleResult(s, r);
      && Inputs(t) == Inputs(s) && t.cache == s.cache
      && t.isLoading == s.isLoading && t.inFlight == s.inFlight
      && Extends(s, t) && |t.events| > |s.events|
      && Requests(t.events) == Requests(s.events)
  {
    var t := HandleResult(s, r);
    var added := t.events[|s.events|..];
    assert t.events == s.events + added;
    NoRequests(added);
    RequestsAppend(s.events, added);
  }

  /** Result handling neither reads nor writes the loading flag: handling with the flag
      set and then restoring it is handling with the flag as it was. */
  lemma HandleResultIgnoresLoading(s: State, r: Response, b: bool)
    requires s.itemsPerPage != 0
    ensures HandleResult(s.(isLoading := b), r).(isLoading := s.isLoading) == HandleResult(s, r)
  {
    if Truthy(r.success) && r.data.Some? {
      var products := r.data.value.products.GetOr([]);
      var total := r.data.value.total;
      var taken := s.(products := products, totalProducts := total, totalPages := CeilDiv(total, s.itemsPerPage));
      assert s.(isLoading := b).(products := products, totalProducts := total, totalPages := CeilDiv(total, s.itemsPerPage))
          == taken.(isLoading := b);
      assert UpdatePagination(taken.(isLoading := b)) == UpdatePagination(taken).(isLoading := b);
    }
  }

  /** `handleSearchResult` on a successful response with data: the products and the
      total are taken from it (missing products read as none), `totalPages` is the
      ceiling of the total over the page size, the page buttons are disabled as the new
      page count calls for, the table is rendered, and availability is loaded for the
      positive ids exactly when there are products and such ids. */
  lemma HandleResultSuccess(s: State, r: Response)
    requires s.itemsPerPage != 0 && Truthy(r.success) && r.data.Some?
    ensures var t := HandleResult(s, r);
      && t.products == r.data.value.products.GetOr([])
      && t.totalProducts == r.data.value.total
      && (s.itemsPerPage > 0 ==>
            (t.totalPages - 1) * s.itemsPerPage < t.totalProducts <= t.totalPages * s.itemsPerPage)
      && t.currentPage == s.currentPage
      && (t.prevDisabled <==> t.currentPage <= 1) && (t.nextDisabled <==> t.currentPage >= t.totalPages)
      && t.events[..|s.events| + 1] == s.events + [RenderedTable(t.products)]
      && (|t.events| == |s.events| + 2 <==> |t.products| > 0 && PositiveIds(t.products) != [])
      && (|t.events| == |s.events| + 2 ==> t.events[|s.events| + 1] == LoadedAvailability(PositiveIds(t.products)))
      && |t.events| <= |s.events| + 2
  {
  }

  /** `handleSearchResult` on any other response: no field changes and the empty state
      is rendered. */
  lemma HandleResultFailure(s: State, r: Response)
    requires s.itemsPerPage != 0 && !(Truthy(r.success) && r.data.Some?)
    ensures HandleResult(s, r) == s.(events := s.events + [RenderedEmpty])
  {
  }

  /** The manager's enrichment ids keep product order: the ids of two lists back to
      back are the ids of the first followed by those of the second, and one product
      contributes its id exactly when it is greater than 0. */
  lemma {:induction false} PositiveIdsAppend(a: seq<Product>, b: seq<Product>)
    ensures PositiveIds(a + b) == PositiveIds(a) + PositiveIds(b)
  {
    if a != [] {
      assert (a + b)[0] == a[0] && (a + b)[1..] == a[1..] + b;
      PositiveIdsAppend(a[1..], b);
    } else {
      assert a + b == b;
    }
  }

  lemma PositiveIdsOne(p: Product)
    ensures PositiveIds([p]) == if p.productId.Some? && p.productId.value > 0 then [p.productId.value] else []
  {
    assert [p][1..] == [];
  }

  // ---------------------------------------------------------------------------
  // Fetching

  /** The guard: while a request is in flight `fetchProducts` does nothing. */
  lemma FetchWhileLoading(s: State, env: Env)
    requires s.itemsPerPage != 0 && s.isLoading
    ensures Fetch(s, env) == s
  {
  }

  /** `fetchProducts` up to the request: the lookup key is the JSON text of the
      parameters; a hit (an entry younger than the timeout) is handled without a request
      and ends with the loading flag down; a miss drops the key from the cache, raises
      the flag and issues exactly the one request. Inputs are never touched. */
  lemma FetchSpec(s: State, env: Env)
    requires Inv(s) && !s.isLoading
    ensures var params := QueryParams(s, env.citySelect);
            var key := CacheKey(params);
            var hit := key in s.cache.keys && env.now - s.cache.vals[key].timestamp < CacheTimeout;
            var t := Fetch(s, env);
      && Inputs(t) == Inputs(s) && Inv(t) && Extends(s, t) && |t.events| > |s.events|
      && (hit ==> !t.isLoading && t.cache == s.cache && Requests(t.events) == Requests(s.events)
                  && t == HandleResult(s, s.cache.vals[key].data))
      && (!hit ==> t.isLoading && t.inFlight == Some(key) && t.cache == s.cache.Delete(key)
                   && t.events == s.events + [Requested(params)]
                   && t.products == s.products && t.totalPages == s.totalPages)
  {
    var params := QueryParams(s, env.citySelect);
    var key := CacheKey(params);
    var (hit, cache) := CacheLookup(s.cache, key, env.now);
    match hit
    case Some(response) =>
      HandleResultKeeps(s, response);
    case None =>
      DeleteSpec(s.cache, key);
  }

  /** `fetchProducts` from the response on: a received body is stored in the cache under
      the request's key (stamped with the time it arrived) before it is handled; a failed
      request shows the error toast and the empty state and changes no other field. The
      loading flag always ends down. */
  lemma ResolveSpec(s: State, net: NetResult, now: int)
    requires Inv(s) && s.isLoading
    ensures var t := ResolveFetch(s, net, now);
      && !t.isLoading && t.inFlight.None? && Inv(t) && Inputs(t) == Inputs(s)
      && Extends(s, t) && Requests(t.events) == Requests(s.events)
      && (net.Received? ==>
            && t.cache == CacheStore(s.cache, s.inFlight.value, net.body, now)
            && t.cache.Get(s.inFlight.value) == Some(CacheEntry(net.body, now))
            && t.products == HandleResult(s, net.body).products
            && t.totalPages == HandleResult(s, net.body).totalPages)
      && (net.Failed? ==>
            && t.cache == s.cache && t.products == s.products && t.totalPages == s.totalPages
            && t.events == s.events + [Toast(LoadErrorMessage, true), RenderedEmpty])
  {
    var key := s.inFlight.value;
    match net
    case Received(r) =>
      var c := CacheStore(s.cache, key, r, now);
      CacheStoreSpec(s.cache, key, r, now);
      HandleResultKeeps(s.(cache := c), r);
    case Failed =>
      var added := [Toast(LoadErrorMessage, true), RenderedEmpty];
      NoRequests(added);
      RequestsAppend(s.events, added);
  }

  /** The part of `ResolveSpec` the manager's `ResolveFetch` method needs. */
  lemma ResolveKeepsInv(s: State, net: NetResult, now: int)
    requires Inv(s) && s.isLoading
    ensures Inv(ResolveFetch(s, net, now))
  {
    ResolveSpec(s, net, now);
  }

  /** Whatever happens to the request, a call of `fetchProducts` that was not refused
      ends with the loading flag down and at most one request issued. */
  lemma FetchCompletes(s: State, env: Env, net: NetResult, now: int)
    requires Inv(s) && !s.isLoading
    ensures var t := Fetch(s, env);
            var done := if t.isLoading then ResolveFetch(t, net, now) else t;
            !done.isLoading && Inv(done) && Requests(done.events) <= Requests(s.events) + 1
  {
    FetchSpec(s, env);
    var t := Fetch(s, env);
    if t.isLoading {
      RequestsAppend(s.events, [Requested(QueryParams(s, env.citySelect))]);
      ResolveSpec(t, net, now);
    }
  }

  /** A second fetch for the same inputs within the timeout of the first response is
      answered from the cache: no request is issued. After the timeout it is not. */
  lemma RefetchWithinTimeout(s: State, env: Env, body: Response, arrival: int, later: Env)
    requires Inv(s) && !s.isLoading && later.citySelect == env.citySelect
    requires !CacheHit(s, env)
    ensures var t := ResolveFetch(Fetch(s, env), Received(body), arrival);
            var u := Fetch(t, later);
            && (later.now - arrival < CacheTimeout ==> !u.isLoading && Requests(u.events) == Requests(t.events))
            && (later.now - arrival >= CacheTimeout ==> u.isLoading)
  {
    FetchSpec(s, env);
    var f := Fetch(s, env);
    var key := CacheKey(QueryParams(s, env.citySelect));
    ResolveSpec(f, Received(body), arrival);
    var t := ResolveFetch(f, Received(body), arrival);
    assert QueryParams(t, later.citySelect) == QueryParams(s, env.citySelect);
    assert t.cache.Get(key) == Some(CacheEntry(body, arrival));
    FetchSpec(t, later);
  }

  /** Whether `Fetch` finds a fresh entry for the state's parameters. */
  ghost predicate CacheHit(s: State, env: Env) {
    var key := CacheKey(QueryParams(s, env.citySelect));
    key in s.cache.vals && env.now - s.cache.vals[key].timestamp < CacheTimeout
  }

  // ---------------------------------------------------------------------------
  // The cache

  /** `getFromCache`: a hit exactly when the key is stored and younger than the timeout,
      returning the stored data and leaving the cache as it is; otherwise the key is
      removed and nothing else changes. */
  lemma CacheLookupSpec(c: Cache, key: string, now: int)
    requires c.Valid()
    ensures var (hit, d) := CacheLookup(c, key, now);
      && (hit.Some? <==> key in c.keys && now - c.vals[key].timestamp < CacheTimeout)
      && (hit.Some? ==> hit.value == c.vals[key].data && d == c)
      && (hit.None? ==> d.Valid() && d.Get(key) == None && d.keys == Without(c.keys, key)
                        && (forall k :: k != key ==> d.Get(k) == c.Get(k)))
      && d.Size() <= c.Size()
  {
    DeleteSpec(c, key);
  }

  /** `saveToCache`: the entry is stored with its time stamp and the cache stays a
      proper map within its capacity. */
  lemma CacheStoreSpec(c: Cache, key: string, data: Response, now: int)
    requires c.Valid() && c.Size() <= CacheCapacity
    ensures var d := CacheStore(c, key, data, now);
      && d.Valid() && d.Size() <= CacheCapacity
      && d.Get(key) == Some(CacheEntry(data, now))
  {
    var entry := CacheEntry(data, now);
    var stored := c.Set(key, entry);
    SetSpec(c, key, entry);
    if stored.Size() > CacheCapacity {
      assert stored.keys[0] != key;
      DeleteSpec(stored, stored.keys[0]);
    }
  }

  /** Below capacity, or when the key is already stored, nothing is evicted: a new key
      is appended, an old one keeps its position, and every other entry stays. */
  lemma CacheStoreWithoutEviction(c: Cache, key: string, data: Response, now: int)
    requires c.Valid() && c.Size() <= CacheCapacity && (key in c.keys || c.Size() < CacheCapacity)
    ensures var d := CacheStore(c, key, data, now);
      && d.keys == (if key in c.keys then c.keys else c.keys + [key])
      && forall k :: k != key ==> d.Get(k) == c.Get(k)
  {
    SetSpec(c, key, CacheEntry(data, now));
  }

  /** A new key added to a full cache evicts the earliest-inserted key, and only it. */
  lemma CacheStoreEvictsEarliest(c: Cache, key: string, data: Response, now: int)
    requires c.Valid() && key !in c.keys && c.Size() == CacheCapacity
    ensures var d := CacheStore(c, key, data, now);
      && d.keys == c.keys[1..] + [key] && d.Get(c.keys[0]) == None
      && forall k :: k != key && k != c.keys[0] ==> d.Get(k) == c.Get(k)
  {
    var entry := CacheEntry(data, now);
    var stored := c.Set(key, entry);
    SetSpec(c, key, entry);
    assert stored.keys == c.keys + [key] && stored.keys[0] == c.keys[0];
    DeleteSpec(stored, stored.keys[0]);
    WithoutFirst(stored.keys);
    assert stored.keys[1..] == c.keys[1..] + [key];
  }

  /** An entry stored at `t` is found by a lookup at `now` exactly while `now - t` is
      below the timeout of 300000 ms. */
  lemma StoreThenLookup(c: Cache, key: string, data: Response, t: int, now: int)
    requires c.Valid() && c.Size() <= CacheCapacity
    ensures var d := CacheStore(c, key, data, t);
            (CacheLookup(d, key, now).0 == Some(data)) <==> now - t < CacheTimeout
  {
    CacheStoreSpec(c, key, data, t);
  }

  /** `clearCache` leaves nothing to hit. */
  lemma ClearCacheMisses(key: string, now: int)
    ensures CacheLookup(Empty(), key, now).0.None?
  {
  }

  // ---------------------------------------------------------------------------
  // Mutations

  /** `saveState(); fetchProducts();` after a mutation: the new snapshot is saved, then
      the fetch either runs or (while a request is in flight) is refused, in which case
      nothing else changes. When the fetch runs, the cache is what its lookup of the new
      parameters leaves. */
  ghost predicate Committed(s: State, r: State, env: Env) {
    && Extends(s, r) && |r.events| > |s.events| && r.events[|s.events|] == Saved(SnapshotOf(r))
    && (s.isLoading ==>
          r.events == s.events + [Saved(SnapshotOf(r))] && r.isLoading && r.inFlight == s.inFlight
          && r.cache == s.cache && r.products == s.products && r.totalPages == s.totalPages)
    && (!s.isLoading ==>
          && |r.events| > |s.events| + 1
          && r.cache == CacheLookup(s.cache, CacheKey(QueryParams(r, env.citySelect)), env.now).1)
  }

  lemma CommitSpec(s: State, env: Env)
    requires Inv(s)
    ensures var t := Commit(s, env);
            Committed(s, t, env) && Inputs(t) == Inputs(s) && Inv(t)
            && Requests(t.events) <= Requests(s.events) + (if s.isLoading then 0 else 1)
  {
    var saved := s.(events := s.events + [Saved(SnapshotOf(s))]);
    RequestsAppend(s.events, [Saved(SnapshotOf(s))]);
    if !s.isLoading {
      FetchSpec(saved, env);
      var t := Fetch(saved, env);
      assert t.events[..|saved.events|] == saved.events;
      assert t.events[..|s.events|] == saved.events[..|s.events|];
      if t.isLoading {
        RequestsAppend(saved.events, [Requested(QueryParams(saved, env.citySelect))]);
      }
    }
  }

  /** `changePage(n)`: the page becomes `max(1, min(n, totalPages))`; when that is the
      current page the call changes nothing at all (no save, no fetch), otherwise only the
      page changes among the inputs and the change is committed. */
  lemma ChangePageSpec(s: State, n: int, env: Env)
    requires Inv(s)
    ensures var p := ClampPage(n, s.totalPages);
            var r := ChangePage(s, n, env);
      && (r == s <==> p == s.currentPage)
      && r.currentPage == p
      && (p != s.currentPage ==> Committed(s, r, env) && Inputs(r) == Inputs(s.(currentPage := p)))
      && (s.totalPages == 0 ==> r.currentPage == 1)
  {
    var p := ClampPage(n, s.totalPages);
    if p != s.currentPage {
      CommitSpec(s.(currentPage := p), env);
    }
  }

  /** `changeItemsPerPage(size)`: a no-op for the current size; otherwise the size
      changes, the page returns to 1 and the change is committed. */
  lemma ChangeItemsPerPageSpec(s: State, size: int, env: Env)
    requires Inv(s) && size != 0
    ensures var r := ChangeItemsPerPage(s, size, env);
      && (r == s <==> size == s.itemsPerPage)
      && r.itemsPerPage == size
      && (size != s.itemsPerPage ==>
            Committed(s, r, env) && Inputs(r) == Inputs(s.(itemsPerPage := size, currentPage := 1)))
  {
    if size != s.itemsPerPage {
      CommitSpec(s.(itemsPerPage := size, currentPage := 1), env);
    }
  }

  /** `handleSearch(query)`: the query is trimmed; a query equal to the last one changes
      nothing; otherwise it becomes the last query, the `search` filter holds it exactly
      when it is not empty, no other filter changes, the page returns to 1 and the change
      is committed. */
  lemma HandleSearchSpec(s: State, query: string, env: Env)
    requires Inv(s)
    ensures var q := Trim(query);
            var r := HandleSearch(s, query, env);
      && (q == s.lastSearchQuery ==> r == s)
      && (q != s.lastSearchQuery ==>
            && r.lastSearchQuery == q && r.currentPage == 1
            && r.filters.Valid()
            && r.filters.Get("search") == (if q != "" then Some(Str(q)) else None)
            && (forall k :: k != "search" ==> r.filters.Get(k) == s.filters.Get(k))
            && Inputs(r) == Inputs(s.(lastSearchQuery := q, filters := r.filters, currentPage := 1))
            && Committed(s, r, env))
  {
    var q := Trim(query);
    if q != s.lastSearchQuery {
      var filters := if q != "" then s.filters.Set("search", Str(q)) else s.filters.Delete("search");
      SearchFilter(s.filters, q);
      var t := s.(lastSearchQuery := q, filters := filters, currentPage := 1);
      CommitSpec(t, env);
      assert HandleSearch(s, query, env) == Commit(t, env);
    }
  }

  /** The filters after a search for a trimmed query `q`. */
  lemma SearchFilter(f: Filters, q: string)
    requires f.Valid()
    ensures var g := if q != "" then f.Set("search", Str(q)) else f.Delete("search");
      && g.Valid()
      && g.Get("search") == (if q != "" then Some(Str(q)) else None)
      && forall k :: k != "search" ==> g.Get(k) == f.Get(k)
  {
    if q != "" {
      SetSpec(f, "search", Str(q));
    } else {
      DeleteSpec(f, "search");
    }
  }

  /** Fetching never changes the inputs. */
  lemma FetchKeepsInputs(s: State, env: Env)
    requires s.itemsPerPage != 0
    ensures Inputs(Fetch(s, env)) == Inputs(s)
  {
    if !s.isLoading {
      var key := CacheKey(QueryParams(s, env.citySelect));
      var (hit, cache) := CacheLookup(s.cache, key, env.now);
      if hit.Some? {
        HandleResultKeeps(s.(cache := cache), hit.value);
      }
    }
  }

  /** After `handleSearch(query)` the last query is the trimmed query, whether or not
      the call was a no-op, and the search timer is as it was. */
  lemma HandleSearchLastQuery(s: State, query: string, env: Env)
    requires s.itemsPerPage != 0
    ensures HandleSearch(s, query, env).lastSearchQuery == Trim(query)
    ensures HandleSearch(s, query, env).debouncePending == s.debouncePending
  {
    var q := Trim(query);
    if q != s.lastSearchQuery {
      var filters := if q != "" then s.filters.Set("search", Str(q)) else s.filters.Delete("search");
      var t := s.(lastSearchQuery := q, filters := filters, currentPage := 1);
      FetchKeepsInputs(t.(events := t.events + [Saved(SnapshotOf(t))]), env);
    }
  }

  /** Searching for the same text twice, however it is padded, searches once. */
  lemma RepeatedSearchIsNoOp(s: State, query: string, env: Env)
    requires s.itemsPerPage != 0
    ensures var r := HandleSearch(s, query, env);
            HandleSearch(r, " " + query + " ", env) == r
  {
    HandleSearchLastQuery(s, query, env);
    TrimPadded(query);
  }

  lemma TrimPadded(t: string)
    ensures Trim(" " + t + " ") == Trim(t)
  {
    var padded := " " + t + " ";
    assert padded[1..] == t + " ";
    assert TrimStart(padded) == TrimStart(t + " ");
    TrimStartOfPadded(t);
  }

  lemma {:induction false} TrimStartOfPadded(t: string)
    ensures TrimEnd(TrimStart(t + " ")) == TrimEnd(TrimStart(t))
  {
    if t == [] {
      assert TrimStart(" ") == [];
    } else if IsSpace(t[0]) {
      assert (t + " ")[1..] == t[1..] + " ";
      TrimStartOfPadded(t[1..]);
    } else {
      assert TrimStart(t + " ") == t + " " && TrimStart(t) == t;
      TrimEndOfPadded(t);
    }
  }

  lemma TrimEndOfPadded(t: string)
    ensures TrimEnd(t + " ") == TrimEnd(t)
  {
    var u := t + " ";
    assert u[..|u| - 1] == t;
  }

  /** The sort table: the price column toggles between ascending and descending price,
      starting from ascending whenever it is not currently ascending; every other column
      selects its own key, an unknown one `relevance`. */
  lemma NextSortTable(current: string, column: string)
    ensures column == "price" ==> NextSort(current, column) == (if current == "price_asc" then "price_desc" else "price_asc")
    ensures column == "name" ==> NextSort(current, column) == "name"
    ensures column == "external_id" ==> NextSort(current, column) == "external_id"
    ensures column == "availability" ==> NextSort(current, column) == "availability"
    ensures column == "orders_count" ==> NextSort(current, column) == "popularity"
    ensures column !in {"price", "name", "external_id", "availability", "orders_count"} ==>
              NextSort(current, column) == DefaultSort
  {
    PriceKeys(column);
  }

  /** Only the ascending price key contains `price`. */
  lemma PriceKeys(column: string)
    ensures Includes(SortKeyFor(column), "price") <==> column == "price"
  {
    var k := SortKeyFor(column);
    if column == "price" {
      assert k == "price_asc";
      assert "price" <= k;
    } else {
      OtherKeysLackPrice(k);
    }
  }

  lemma OtherKeysLackPrice(k: string)
    requires k in {"name", "external_id", "availability", "popularity", DefaultSort}
    ensures !Includes(k, "price")
  {
    if k == "name" {
      NotIncluded(k, "price");
    } else if k == "external_id" {
      NotIncluded(k, "price");
    } else if k == "availability" {
      NotIncluded(k, "price");
    } else if k == "popularity" {
      NotIncluded(k, "price");
    } else {
      NotIncluded(k, "price");
    }
  }

  /** A text includes `price` only if some `p` in it is followed by `r`. */
  lemma NotIncluded(s: string, t: string)
    requires t == "price"
    requires forall i :: 0 <= i < |s| - 1 ==> !(s[i] == 'p' && s[i + 1] == 'r')
    ensures !Includes(s, t)
  {
    forall i ensures !OccursAt(s, t, i) {
      if 0 <= i && i + |t| <= |s| {
        assert s[i..i + |t|][0] == s[i] && s[i..i + |t|][1] == s[i + 1];
      }
    }
    IncludesOccurs(s, t);
  }

  /** `sortProducts(column)`: always commits (there is no no-op check), resets the page
      and leaves the sort direction and the filters alone. */
  lemma SortProductsSpec(s: State, column: string, env: Env)
    requires Inv(s)
    ensures var r := SortProducts(s, column, env);
      && r.sortColumn == NextSort(s.sortColumn, column) && r.currentPage == 1
      && Inputs(r) == Inputs(s.(sortColumn := NextSort(s.sortColumn, column), currentPage := 1))
      && Committed(s, r, env) && r != s
  {
    var t := s.(sortColumn := NextSort(s.sortColumn, column), currentPage := 1);
    PriceKeys(column);
    CommitSpec(t, env);
  }

  /** `handleFilterChange(name, value)`: a truthy value is stored, a falsy one deletes
      the filter; no other filter changes; the page returns to 1; committed. */
  lemma HandleFilterChangeSpec(s: State, name: string, value: Value, env: Env)
    requires Inv(s)
    ensures var r := HandleFilterChange(s, name, value, env);
      && r.filters.Valid()
      && r.filters.Get(name) == (if Truthy(value) then Some(value) else None)
      && (forall k :: k != name ==> r.filters.Get(k) == s.filters.Get(k))
      && r.currentPage == 1
      && Inputs(r) == Inputs(s.(filters := r.filters, currentPage := 1))
      && Committed(s, r, env)
  {
    var filters := if Truthy(value) then s.filters.Set(name, value) else s.filters.Delete(name);
    SetSpec(s.filters, name, value);
    DeleteSpec(s.filters, name);
    CommitSpec(s.(filters := filters, currentPage := 1), env);
  }

  /** `removeFilter(name)`: the filter is gone, the others stay; page 1; committed. */
  lemma RemoveFilterSpec(s: State, name: string, env: Env)
    requires Inv(s)
    ensures var r := RemoveFilter(s, name, env);
      && r.filters.Valid() && r.filters.Get(name) == None
      && (forall k :: k != name ==> r.filters.Get(k) == s.filters.Get(k))
      && r.filters.keys == Without(s.filters.keys, name)
      && r.currentPage == 1
      && Inputs(r) == Inputs(s.(filters := r.filters, currentPage := 1))
      && Committed(s, r, env)
  {
    DeleteSpec(s.filters, name);
    CommitSpec(s.(filters := s.filters.Delete(name), currentPage := 1), env);
  }

  /** `clearAllFilters()`: no filter is left, the last query and the search box are
      empty, page 1; committed. */
  lemma ClearAllFiltersSpec(s: State, env: Env)
    requires Inv(s)
    ensures var r := ClearAllFilters(s, env);
      && r.filters.Size() == 0 && (forall k :: r.filters.Get(k) == None)
      && r.lastSearchQuery == "" && r.searchBox == "" && r.currentPage == 1
      && Inputs(r) == Inputs(s.(filters := Empty(), lastSearchQuery := "", searchBox := "", currentPage := 1))
      && Committed(s, r, env)
  {
    CommitSpec(s.(filters := Empty(), lastSearchQuery := "", searchBox := "", currentPage := 1), env);
  }

  /** A city change empties the cache first, so unless a request is already in flight
      it always issues a request, and the cache ends empty either way. */
  lemma CityChangedSpec(s: State, env: Env)
    requires Inv(s)
    ensures var r := CityChanged(s, env);
      && r.cache.Size() == 0 && Inputs(r) == Inputs(s)
      && (!s.isLoading ==> r.isLoading && r.events == s.events + [Requested(QueryParams(s, env.citySelect))])
      && (s.isLoading ==> r == s.(cache := Empty()))
  {
    if !s.isLoading {
      FetchSpec(s.(cache := Empty()), env);
    }
  }

  /** Mutations while a request is in flight still change the inputs and save them, but
      issue no request; the response of the earlier request is what gets handled. */
  lemma MutationWhileLoading(s: State, n: int, env: Env)
    requires Inv(s) && s.isLoading
    ensures var r := ChangePage(s, n, env);
            r.isLoading && r.inFlight == s.inFlight && Requests(r.events) == Requests(s.events)
  {
    ChangePageSpec(s, n, env);
    var r := ChangePage(s, n, env);
    if r != s {
      RequestsAppend(s.events, [Saved(SnapshotOf(r))]);
    }
  }

  // ---------------------------------------------------------------------------
  // Pagination

  /** For a page inside the page range, a button `updatePagination` disables is one whose
      click would change nothing. Past the last page (a restored page beyond the page
      count of the first result) the next buttons are disabled although a click would
      move back to the last page, and a previous click jumps straight to the last page,
      because `changePage` clamps. */
  lemma DisabledButtonsAreNoOps(s: State, env: Env)
    requires Inv(s)
    ensures 1 <= s.currentPage <= Max(1, s.totalPages) && PrevDisabled(s) ==> PrevClicked(s, env) == s
    ensures 1 <= s.currentPage <= Max(1, s.totalPages) && NextDisabled(s) ==> NextClicked(s, env) == s
    ensures s.currentPage > Max(1, s.totalPages) ==>
              NextDisabled(s) && NextClicked(s, env).currentPage == Max(1, s.totalPages)
    ensures s.totalPages >= 1 && s.currentPage > s.totalPages ==>
              PrevClicked(s, env).currentPage == s.totalPages
  {
    ChangePageSpec(s, s.currentPage - 1, env);
    ChangePageSpec(s, s.currentPage + 1, env);
  }

  /** A page change keeps the page in range: at least 1, at most the larger of the old
      page and the page count, and on page 1 exactly when the next `updatePagination`
      disables the previous buttons. */
  lemma PaginationAfterChange(s: State, n: int, env: Env)
    requires Inv(s) && s.totalPages >= 1
    ensures var r := ChangePage(s, n, env);
            (PrevDisabled(r) <==> r.currentPage == 1)
            && 1 <= r.currentPage <= Max(s.currentPage, s.totalPages)
  {
    ChangePageSpec(s, n, env);
  }

  /** Enter in a page input with text `parseInt` rejects goes to page 1. */
  lemma PageEnteredDefault(s: State, text: string, env: Env)
    requires Inv(s) && ParseIntText(text).None?
    ensures PageEntered(s, text, env) == ChangePage(s, 1, env)
  {
  }

  // ---------------------------------------------------------------------------
  // The search debounce

  /** Typing twice and letting the timer fire searches once, for the last text. */
  lemma DebounceSubmitsLastText(s: State, a: string, b: string, env: Env)
    requires Inv(s)
    ensures var typed := SearchTyped(SearchTyped(s, a), b);
            typed.debouncePending
            && DebounceFired(typed, env) == HandleSearch(s.(searchBox := b, debouncePending := false), b, env)
  {
  }

  /** Enter cancels the timer, so a pending search cannot fire after it; the search
      button leaves a running timer alone. */
  lemma EnterCancelsTimer(s: State, env: Env)
    requires Inv(s)
    ensures !SearchEnter(s, env).debouncePending
    ensures SearchButton(s, env).debouncePending == s.debouncePending
  {
    HandleSearchLastQuery(s.(debouncePending := false), s.searchBox, env);
    HandleSearchLastQuery(s, s.searchBox, env);
  }

  // ---------------------------------------------------------------------------
  // Request parameters

  /** Copying filters keeps the earlier parameters in place, stores every truthy
      non-`search` filter under its own name and touches no other key. */
  lemma {:induction false} CopyFiltersSpec(p: Params, f: Filters, keys: seq<string>)
    requires p.Valid()
    ensures var r := CopyFilters(p, f, keys);
      && r.Valid() && p.keys <= r.keys
      && forall k :: r.Get(k) ==
           if k in keys && k != "search" && Truthy(FilterValue(f, k)) then Some(FilterValue(f, k)) else p.Get(k)
  {
    if keys != [] {
      var init := keys[..|keys| - 1];
      var k := keys[|keys| - 1];
      CopyFiltersSpec(p, f, init);
      var prior := CopyFilters(p, f, init);
      var v := FilterValue(f, k);
      var r := CopyFilters(p, f, keys);
      if k != "search" && Truthy(v) {
        SetSpec(prior, k, v);
        assert r == prior.Set(k, v);
      } else {
        assert r == prior;
      }
      forall x
        ensures r.Get(x) ==
          if x in keys && x != "search" && Truthy(FilterValue(f, x)) then Some(FilterValue(f, x)) else p.Get(x)
      {
        assert x in keys <==> x in init || x == k;
      }
    }
  }

  /** The four base parameters hold the state's values, and nothing else is set. */
  lemma BaseParamsGet(page: int, limit: int, sort: string, city: string)
    ensures var b := BaseParams(page, limit, sort, city);
      && b.Get("page") == Some(Num(page)) && b.Get("limit") == Some(Num(limit))
      && b.Get("sort") == Some(Str(sort)) && b.Get("city_id") == Some(Str(city))
      && forall k :: k !in BaseKeys ==> b.Get(k) == None
  {
  }

  /** The shape of the parameters before the filters are copied. */
  lemma WithSearchShape(s: State, citySelect: Option<string>)
    ensures var w := WithSearch(BaseParams(s.currentPage, s.itemsPerPage, s.sortColumn, CityId(citySelect)), s.filters);
            var search := FilterValue(s.filters, "search");
      && w.Valid() && |w.keys| >= 4 && w.keys[..4] == BaseKeys
      && w.Get("search") == None
      && w.Get("q") == (if Truthy(search) then Some(search) else None)
  {
    var base := BaseParams(s.currentPage, s.itemsPerPage, s.sortColumn, CityId(citySelect));
    var search := FilterValue(s.filters, "search");
    assert "q" !in BaseKeys && "search" !in BaseKeys;
    if Truthy(search) {
      SetSpec(base, "q", search);
      assert WithSearch(base, s.filters) == base.Set("q", search);
    } else {
      assert WithSearch(base, s.filters) == base;
    }
  }

  /** The parameters before the filters are copied. */
  lemma WithSearchSpec(s: State, citySelect: Option<string>)
    ensures var w := WithSearch(BaseParams(s.currentPage, s.itemsPerPage, s.sortColumn, CityId(citySelect)), s.filters);
            var search := FilterValue(s.filters, "search");
      && w.Valid() && |w.keys| >= 4 && w.keys[..4] == BaseKeys
      && w.Get("search") == None
      && w.Get("q") == (if Truthy(search) then Some(search) else None)
      && w.Get("page") == Some(Num(s.currentPage)) && w.Get("limit") == Some(Num(s.itemsPerPage))
      && w.Get("sort") == Some(Str(s.sortColumn)) && w.Get("city_id") == Some(Str(CityId(citySelect)))
      && forall k :: k !in BaseKeys && k != "q" ==> w.Get(k) == None
  {
    var base := BaseParams(s.currentPage, s.itemsPerPage, s.sortColumn, CityId(citySelect));
    var search := FilterValue(s.filters, "search");
    BaseParamsGet(s.currentPage, s.itemsPerPage, s.sortColumn, CityId(citySelect));
    WithSearchShape(s, citySelect);
    if Truthy(search) {
      SetSpec(base, "q", search);
    }
  }

  /** A filter that is not stored reads as `undefined`, which is falsy. */
  lemma AbsentFilterFalsy(f: Filters, k: string)
    requires f.Valid() && k !in f.keys
    ensures !Truthy(FilterValue(f, k))
  {
  }

  /** The order of a request's parameters: `page`, `limit`, `sort` and `city_id` come
      first and in that order, and `search` is never sent under its own name. */
  lemma QueryParamsOrder(s: State, citySelect: Option<string>)
    requires s.filters.Valid()
    ensures var p := QueryParams(s, citySelect);
            p.Valid() && |p.keys| >= 4 && p.keys[..4] == BaseKeys && p.Get("search") == None
  {
    WithSearchShape(s, citySelect);
    var w := WithSearch(BaseParams(s.currentPage, s.itemsPerPage, s.sortColumn, CityId(citySelect)), s.filters);
    CopyFiltersSpec(w, s.filters, s.filters.keys);
    assert w.keys[..4] == QueryParams(s, citySelect).keys[..4];
  }

  /** `q` carries the search filter when it is truthy, unless a truthy filter named
      `q` overrides it; without either there is no `q`. */
  lemma QueryParamsSearch(s: State, citySelect: Option<string>)
    requires s.filters.Valid()
    ensures var p := QueryParams(s, citySelect);
            var search := FilterValue(s.filters, "search");
            var q := FilterValue(s.filters, "q");
            p.Get("q") == (if Truthy(q) then Some(q) else if Truthy(search) then Some(search) else None)
  {
    WithSearchSpec(s, citySelect);
    var w := WithSearch(BaseParams(s.currentPage, s.itemsPerPage, s.sortColumn, CityId(citySelect)), s.filters);
    CopyFiltersSpec(w, s.filters, s.filters.keys);
    if "q" !in s.filters.keys {
      AbsentFilterFalsy(s.filters, "q");
    }
  }

  /** The four base parameters carry the state's page, page size, sort key and city,
      unless a truthy filter of the same name overrides one. */
  lemma QueryParamsBase(s: State, citySelect: Option<string>)
    requires s.filters.Valid()
    ensures var p := QueryParams(s, citySelect);
            var f := s.filters;
      && p.Get("page") == Some(if Truthy(FilterValue(f, "page")) then FilterValue(f, "page") else Num(s.currentPage))
      && p.Get("limit") == Some(if Truthy(FilterValue(f, "limit")) then FilterValue(f, "limit") else Num(s.itemsPerPage))
      && p.Get("sort") == Some(if Truthy(FilterValue(f, "sort")) then FilterValue(f, "sort") else Str(s.sortColumn))
      && p.Get("city_id") == Some(if Truthy(FilterValue(f, "city_id")) then FilterValue(f, "city_id") else Str(CityId(citySelect)))
  {
    WithSearchSpec(s, citySelect);
    var w := WithSearch(BaseParams(s.currentPage, s.itemsPerPage, s.sortColumn, CityId(citySelect)), s.filters);
    CopyFiltersSpec(w, s.filters, s.filters.keys);
    forall k | k !in s.filters.keys ensures !Truthy(FilterValue(s.filters, k)) {
      AbsentFilterFalsy(s.filters, k);
    }
  }

  /** Every other filter is sent under its own name exactly when it is truthy, and no
      other parameter is sent. */
  lemma QueryParamsFilters(s: State, citySelect: Option<string>)
    requires s.filters.Valid()
    ensures var p := QueryParams(s, citySelect);
            forall k :: k !in BaseKeys && k != "q" && k != "search" ==>
              p.Get(k) == (if Truthy(FilterValue(s.filters, k)) then Some(FilterValue(s.filters, k)) else None)
  {
    WithSearchSpec(s, citySelect);
    var w := WithSearch(BaseParams(s.currentPage, s.itemsPerPage, s.sortColumn, CityId(citySelect)), s.filters);
    CopyFiltersSpec(w, s.filters, s.filters.keys);
    forall k | k !in s.filters.keys ensures !Truthy(FilterValue(s.filters, k)) {
      AbsentFilterFalsy(s.filters, k);
    }
  }

  /** The member text of one string-valued key. */
  function MemberText(x: string, vals: map<string, Value>): string
    requires x in vals && vals[x].Str?
  {
    Json.Quote(x) + ":" + Json.Quote(vals[x].s)
  }

  /** A member text starts with a quote and the key's first character when that
      character is written as it is. */
  lemma MemberTextStart(x: string, vals: map<string, Value>)
    requires x in vals && vals[x].Str? && x != [] && Json.IsPlain(x[0])
    ensures |MemberText(x, vals)| > 1 && MemberText(x, vals)[1] == x[0]
  {
    assert Json.EscapeText(x) == Json.EscapeChar(x[0]) + Json.EscapeText(x[1..]);
  }

  /** The JSON text of an object whose last two keys are string-valued. */
  lemma StringifyLastTwo(m: seq<string>, vals: map<string, Value>, x: string, y: string)
    requires Json.Members(m, vals) != []
    requires x in vals && y in vals && vals[x].Str? && vals[y].Str?
    ensures Json.Stringify(OMap(m + [x, y], vals))
         == "{" + Json.JoinComma(Json.Members(m, vals)) + "," + (MemberText(x, vals) + "," + MemberText(y, vals)) + "}"
  {
    var head := Json.Members(m, vals);
    var mx, my := MemberText(x, vals), MemberText(y, vals);
    MembersLastTwo(m, vals, x, y);
    Json.JoinCommaAppend(head, [mx, my]);
    assert [mx, my][1..] == [my];
  }

  /** The members of an object whose last two keys are string-valued. */
  lemma MembersLastTwo(m: seq<string>, vals: map<string, Value>, x: string, y: string)
    requires x in vals && y in vals && vals[x].Str? && vals[y].Str?
    ensures Json.Members(m + [x, y], vals) == Json.Members(m, vals) + [MemberText(x, vals), MemberText(y, vals)]
  {
    var mx, my := MemberText(x, vals), MemberText(y, vals);
    MemberOne(x, vals);
    MemberOne(y, vals);
    assert m + [x, y] == (m + [x]) + [y];
    Json.MembersAppend(m + [x], [y], vals);
    Json.MembersAppend(m, [x], vals);
  }

  /** The members of a one-key object with a string value. */
  lemma MemberOne(x: string, vals: map<string, Value>)
    requires x in vals && vals[x].Str?
    ensures Json.Members([x], vals) == [MemberText(x, vals)]
  {
    assert [x][1..] == [];
  }

  /** The JSON text of an object whose last two keys are swapped differs, when the two
      keys start with different plain characters and both carry strings. */
  lemma SwappedKeysDiffer(m: seq<string>, vals: map<string, Value>, x: string, y: string)
    requires Json.Members(m, vals) != []
    requires x in vals && y in vals && vals[x].Str? && vals[y].Str?
    requires x != [] && y != [] && Json.IsPlain(x[0]) && Json.IsPlain(y[0]) && x[0] != y[0]
    ensures Json.Stringify(OMap(m + [x, y], vals)) != Json.Stringify(OMap(m + [y, x], vals))
  {
    var j := Json.JoinComma(Json.Members(m, vals));
    var mx, my := MemberText(x, vals), MemberText(y, vals);
    StringifyLastTwo(m, vals, x, y);
    StringifyLastTwo(m, vals, y, x);
    MemberTextStart(x, vals);
    MemberTextStart(y, vals);
    var kx := "{" + j + "," + (mx + "," + my) + "}";
    var ky := "{" + j + "," + (my + "," + mx) + "}";
    assert kx[|j| + 3] == mx[1];
    assert ky[|j| + 3] == my[1];
  }

  /** The two filters of a swapped-order example. */
  function TwoFilters(first: string, second: string): Filters {
    OMap([first, second], map["brand" := Str("acme"), "category" := Str("tools")])
  }

  /** The parameter values of a state holding the two example filters. */
  function TwoFilterParams(s: State, citySelect: Option<string>): map<string, Value> {
    BaseParams(s.currentPage, s.itemsPerPage, s.sortColumn, CityId(citySelect)).vals
      ["brand" := Str("acme")]["category" := Str("tools")]
  }

  lemma ParamsBrandFirst(s: State, citySelect: Option<string>)
    ensures QueryParams(s.(filters := TwoFilters("brand", "category")), citySelect)
         == OMap(BaseKeys + ["brand", "category"], TwoFilterParams(s, citySelect))
  {
    var f := TwoFilters("brand", "category");
    var base := BaseParams(s.currentPage, s.itemsPerPage, s.sortColumn, CityId(citySelect));
    assert WithSearch(base, f) == base;
    assert ["brand", "category"][..1] == ["brand"] && ["brand"][..0] == [];
    var one := base.Set("brand", Str("acme"));
    assert CopyFilters(base, f, ["brand"]) == one;
    assert "category" !in one.vals;
    assert CopyFilters(base, f, ["brand", "category"]) == one.Set("category", Str("tools"));
    assert QueryParams(s.(filters := f), citySelect) == CopyFilters(base, f, ["brand", "category"]);
  }

  lemma ParamsCategoryFirst(s: State, citySelect: Option<string>)
    ensures QueryParams(s.(filters := TwoFilters("category", "brand")), citySelect)
         == OMap(BaseKeys + ["category", "brand"], TwoFilterParams(s, citySelect))
  {
    var f := TwoFilters("category", "brand");
    var base := BaseParams(s.currentPage, s.itemsPerPage, s.sortColumn, CityId(citySelect));
    assert WithSearch(base, f) == base;
    assert ["category", "brand"][..1] == ["category"] && ["category"][..0] == [];
    var one := base.Set("category", Str("tools"));
    assert CopyFilters(base, f, ["category"]) == one;
    assert "brand" !in one.vals;
    assert CopyFilters(base, f, ["category", "brand"]) == one.Set("brand", Str("acme"));
    assert QueryParams(s.(filters := f), citySelect) == CopyFilters(base, f, ["category", "brand"]);
    assert base.vals["category" := Str("tools")]["brand" := Str("acme")] == TwoFilterParams(s, citySelect);
  }

  lemma BaseMembersNotEmpty(vals: map<string, Value>, page: int)
    requires "page" in vals && vals["page"] == Num(page)
    ensures Json.Members(BaseKeys, vals) != []
  {
    assert BaseKeys[0] == "page";
  }

  /** The cache key is not a function of the filter values alone: the same two filters
      entered in the other order give the same filter map but a different key, so a
      cached response for one order is not found for the other. */
  lemma CacheKeyDependsOnFilterOrder(s: State, citySelect: Option<string>)
    ensures var a := s.(filters := TwoFilters("brand", "category"));
            var b := s.(filters := TwoFilters("category", "brand"));
            && a.filters.Valid() && b.filters.Valid()
            && (forall k :: a.filters.Get(k) == b.filters.Get(k))
            && CacheKey(QueryParams(a, citySelect)) != CacheKey(QueryParams(b, citySelect))
  {
    var vals := TwoFilterParams(s, citySelect);
    ParamsBrandFirst(s, citySelect);
    ParamsCategoryFirst(s, citySelect);
    BaseMembersNotEmpty(vals, s.currentPage);
    SwappedKeysDiffer(BaseKeys, vals, "brand", "category");
  }

  // ---------------------------------------------------------------------------
  // Restoring state and start-up

  /** Nothing stored, or text that does not parse, leaves the fields as they are; each
      missing or falsy field of a parsed record falls back to its default. */
  lemma RestoreDefaults(s: State, rec: SavedRecord)
    ensures Restore(s, NothingStored) == s && Restore(s, Unparsable) == s
    ensures var r := Restore(s, Parsed(rec));
      && (rec.currentPage.None? || rec.currentPage == Some(0) ==> r.currentPage == 1)
      && (rec.itemsPerPage.None? || rec.itemsPerPage == Some(0) ==> r.itemsPerPage == DefaultItemsPerPage)
      && (rec.sortColumn.None? || rec.sortColumn == Some("") ==> r.sortColumn == DefaultSort)
      && (rec.sortDirection.None? || rec.sortDirection == Some("") ==> r.sortDirection == DefaultDirection)
      && (rec.filters.None? ==> r.filters.Size() == 0)
      && r.lastSearchQuery == s.lastSearchQuery && r.cache == s.cache && r.events == s.events
  {
  }

  /** A saved snapshot of a reachable state is restored exactly. */
  lemma RestoreRoundTrip(s: State, t: State)
    requires Inv(t)
    ensures SnapshotOf(Restore(s, Parsed(RecordOf(SnapshotOf(t))))) == SnapshotOf(t)
  {
  }

  /** A stored record whose filters (if any) form a proper ordered map. */
  ghost predicate WellFormed(stored: Stored) {
    stored.Parsed? && stored.record.filters.Some? ==> stored.record.filters.value.Valid()
  }

  lemma RestoreKeepsInv(s: State, stored: Stored)
    requires Inv(s) && WellFormed(stored)
    ensures Inv(Restore(s, stored))
  {
  }

  /** A fresh manager on a page with the product table issues exactly one request,
      for the restored inputs with the URL's search applied, and is then loading. */
  lemma InitRequestsOnce(stored: Stored, searchParam: Option<string>, env: Env)
    requires WellFormed(stored)
    ensures var s := ApplyUrlSearch(Restore(Initial(), stored), searchParam);
            var r := Init(Initial(), stored, searchParam, true, env);
            r.isLoading && r.events == [Requested(QueryParams(s, env.citySelect))] && Inputs(r) == Inputs(s)
    ensures Init(Initial(), stored, searchParam, false, env).events == []
  {
    var s := ApplyUrlSearch(Restore(Initial(), stored), searchParam);
    RestoreKeepsInv(Initial(), stored);
    SetSpec(Restore(Initial(), stored).filters, "search", Str(searchParam.GetOr("")));
    assert Inv(s);
    FetchSpec(s, env);
  }

  // ---------------------------------------------------------------------------
  // All operations together

  /** Every way the manager's state can change. */
  datatype Action =
    | Page(page: int)
    | PageSize(size: int)
    | Search(query: string)
    | Sort(column: string)
    | FilterChange(name: string, value: Value)
    | Remove(name: string)
    | ClearAll
    | CityChange
    | Typed(text: string)
    | TimerFired
    | Enter
    | Button
    | PageText(text: string)
    | Prev
    | Next
    | Respond(net: NetResult)

  /** Whether the event can occur: the timer fires only while it runs, a response
      arrives only for a request in flight, page sizes are non-zero, and a page button
      is clicked only while it is enabled. */
  predicate Enabled(s: State, a: Action) {
    match a
    case PageSize(size) => size != 0
    case TimerFired => s.debouncePending
    case Respond(_) => s.inFlight.Some?
    case Prev => !s.prevDisabled
    case Next => !s.nextDisabled
    case _ => true
  }

  function Step(s: State, a: Action, env: Env): State
    requires s.itemsPerPage != 0 && Enabled(s, a)
  {
    match a
    case Page(n) => ChangePage(s, n, env)
    case PageSize(size) => ChangeItemsPerPage(s, size, env)
    case Search(q) => HandleSearch(s, q, env)
    case Sort(c) => SortProducts(s, c, env)
    case FilterChange(k, v) => HandleFilterChange(s, k, v, env)
    case Remove(k) => RemoveFilter(s, k, env)
    case ClearAll => ClearAllFilters(s, env)
    case CityChange => CityChanged(s, env)
    case Typed(t) => SearchTyped(s, t)
    case TimerFired => DebounceFired(s, env)
    case Enter => SearchEnter(s, env)
    case Button => SearchButton(s, env)
    case PageText(t) => PageEntered(s, t, env)
    case Prev => PrevClicked(s, env)
    case Next => NextClicked(s, env)
    case Respond(net) => ResolveFetch(s, net, env.now)
  }

  /** Every operation keeps the invariant: the cache stays within 50 entries, the
      loading flag is up exactly while a request is in flight, and so on. */
  lemma StepKeepsInv(s: State, a: Action, env: Env)
    requires Inv(s) && Enabled(s, a)
    ensures Inv(Step(s, a, env))
    ensures Extends(s, Step(s, a, env))
  {
    StepFacts(s, a, env);
  }

  /** Single flight: at most one request is outstanding. A step issues a request only
      when none is in flight, issues at most one, and then leaves the manager loading;
      the in-flight request is only ever ended by its response. */
  lemma SingleFlight(s: State, a: Action, env: Env)
    requires Inv(s) && Enabled(s, a)
    ensures var r := Step(s, a, env);
      && Requests(r.events) <= Requests(s.events) + (if s.isLoading then 0 else 1)
      && (Requests(r.events) > Requests(s.events) ==> r.isLoading)
      && (s.isLoading && !a.Respond? ==> r.isLoading && r.inFlight == s.inFlight)
  {
    StepFacts(s, a, env);
  }

  lemma StepFacts(s: State, a: Action, env: Env)
    requires Inv(s) && Enabled(s, a)
    ensures var r := Step(s, a, env);
      && Inv(r) && Extends(s, r)
      && Requests(r.events) <= Requests(s.events) + (if s.isLoading then 0 else 1)
      && (Requests(r.events) > Requests(s.events) ==> r.isLoading)
      && (s.isLoading && !a.Respond? ==> r.isLoading && r.inFlight == s.inFlight)
  {
    if a.Respond? {
      ResolveSpec(s, a.net, env.now);
    } else if IsMutation(a) {
      MutationFacts(s, a, env);
    } else {
      InputFacts(s, a, env);
    }
  }

  /** The operations that change the manager's fields directly. */
  predicate IsMutation(a: Action) {
    a.Page? || a.PageSize? || a.Search? || a.Sort? || a.FilterChange? || a.Remove?
    || a.ClearAll? || a.CityChange?
  }

  lemma MutationFacts(s: State, a: Action, env: Env)
    requires Inv(s) && Enabled(s, a) && IsMutation(a)
    ensures FetchStep(s, Step(s, a, env))
  {
    match a
    case Page(n) => PageFacts(s, n, env);
    case PageSize(size) => PageSizeFacts(s, size, env);
    case Search(q) => SearchFacts(s, q, env);
    case Sort(c) => SortFacts(s, c, env);
    case FilterChange(k, v) => FilterChangeFacts(s, k, v, env);
    case Remove(k) => RemoveFacts(s, k, env);
    case ClearAll => ClearAllFacts(s, env);
    case CityChange => CityFacts(s, env);
  }

  lemma PageSizeFacts(s: State, size: int, env: Env)
    requires Inv(s) && size != 0
    ensures FetchStep(s, ChangeItemsPerPage(s, size, env))
  {
    if size != s.itemsPerPage {
      CommitFacts(s.(itemsPerPage := size, currentPage := 1), env);
    }
  }

  lemma SortFacts(s: State, column: string, env: Env)
    requires Inv(s)
    ensures FetchStep(s, SortProducts(s, column, env))
  {
    CommitFacts(s.(sortColumn := NextSort(s.sortColumn, column), currentPage := 1), env);
  }

  lemma FilterChangeFacts(s: State, name: string, value: Value, env: Env)
    requires Inv(s)
    ensures FetchStep(s, HandleFilterChange(s, name, value, env))
  {
    if Truthy(value) {
      SetSpec(s.filters, name, value);
      CommitFacts(s.(filters := s.filters.Set(name, value), currentPage := 1), env);
    } else {
      DeleteSpec(s.filters, name);
      CommitFacts(s.(filters := s.filters.Delete(name), currentPage := 1), env);
    }
  }

  lemma RemoveFacts(s: State, name: string, env: Env)
    requires Inv(s)
    ensures FetchStep(s, RemoveFilter(s, name, env))
  {
    DeleteSpec(s.filters, name);
    CommitFacts(s.(filters := s.filters.Delete(name), currentPage := 1), env);
  }

  lemma ClearAllFacts(s: State, env: Env)
    requires Inv(s)
    ensures FetchStep(s, ClearAllFilters(s, env))
  {
    CommitFacts(s.(filters := Empty(), lastSearchQuery := "", searchBox := "", currentPage := 1), env);
  }

  lemma CityFacts(s: State, env: Env)
    requires Inv(s)
    ensures FetchStep(s, CityChanged(s, env))
  {
    if !s.isLoading {
      FetchFacts(s.(cache := Empty()), env);
    }
  }

  lemma InputFacts(s: State, a: Action, env: Env)
    requires Inv(s) && Enabled(s, a) && !IsMutation(a) && !a.Respond?
    ensures FetchStep(s, Step(s, a, env))
  {
    match a
    case Typed(t) =>
    case TimerFired => SearchFacts(s.(debouncePending := false), s.searchBox, env);
    case Enter => SearchFacts(s.(debouncePending := false), s.searchBox, env);
    case Button => SearchFacts(s, s.searchBox, env);
    case PageText(t) => PageFacts(s, PageFromText(t), env);
    case Prev => PageFacts(s, s.currentPage - 1, env);
    case Next => PageFacts(s, s.currentPage + 1, env);
  }

  /** The facts `StepFacts` needs about one fetch. */
  ghost predicate FetchStep(s: State, r: State) {
    && Inv(r) && Extends(s, r)
    && Requests(r.events) <= Requests(s.events) + (if s.isLoading then 0 else 1)
    && (Requests(r.events) > Requests(s.events) ==> r.isLoading)
    && (s.isLoading ==> r.isLoading && r.inFlight == s.inFlight)
  }

  lemma FetchFacts(s: State, env: Env)
    requires Inv(s)
    ensures FetchStep(s, Fetch(s, env))
  {
    if !s.isLoading {
      FetchSpec(s, env);
      var t := Fetch(s, env);
      if t.isLoading {
        RequestsAppend(s.events, [Requested(QueryParams(s, env.citySelect))]);
      }
    }
  }

  lemma CommitFacts(s: State, env: Env)
    requires Inv(s)
    ensures FetchStep(s, Commit(s, env))
  {
    var saved := s.(events := s.events + [Saved(SnapshotOf(s))]);
    RequestsAppend(s.events, [Saved(SnapshotOf(s))]);
    FetchFacts(saved, env);
    var t := Commit(s, env);
    assert t.events[..|s.events|] == t.events[..|saved.events|][..|s.events|];
  }

  lemma PageFacts(s: State, n: int, env: Env)
    requires Inv(s)
    ensures FetchStep(s, ChangePage(s, n, env))
  {
    var p := ClampPage(n, s.totalPages);
    if p != s.currentPage {
      CommitFacts(s.(currentPage := p), env);
    }
  }

  lemma SearchFacts(s: State, query: string, env: Env)
    requires Inv(s)
    ensures FetchStep(s, HandleSearch(s, query, env))
  {
    var q := Trim(query);
    if q != s.lastSearchQuery {
      var filters := if q != "" then s.filters.Set("search", Str(q)) else s.filters.Delete("search");
      SearchFilter(s.filters, q);
      var t := s.(lastSearchQuery := q, filters := filters, currentPage := 1);
      assert Inv(t);
      assert t.events == s.events && t.isLoading == s.isLoading && t.inFlight == s.inFlight;
      CommitFacts(t, env);
      assert HandleSearch(s, query, env) == Commit(t, env);
    }
  }

  // ---------------------------------------------------------------------------
  // The manager and the renderer

  /** The manager's own enrichment drops a product id of 0, while the renderer's row
      scan passes it on: the two lists of ids can differ. */
  lemma EnrichmentIdsDiffer(p: Product)
    requires p.productId == Some(0) && RenderProducts.BuildRow(p).Normal?
    ensures PositiveIds([p]) == []
    ensures RenderProducts.RenderedProductIds([p]) == [Some(0)]
  {
    assert [p][..0] == [];
    assert [p][1..] == [];
  }
}
