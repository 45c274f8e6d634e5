# Products catalogue: manager and table renderer

This project models the client-side core of a shop's product catalogue page. It covers two parts:

- **`ProductsManager`**: the object that holds the paging, sorting, filter and search state. It builds the request parameters from that state, keeps a five-minute result cache of at most fifty entries, fetches one page of products at a time, saves its state to local storage and restores it, and reacts to the page's controls (search box with its 300 ms timer, pagination buttons and page inputs, page-size selector, city selector).
- **The table renderer**: the value selection of each row, meaning which text every modelled cell shows (code, image, alt text, status badge, minimum batch and unit, availability, delivery, orders) and when building a row throws. It also covers the outline of rendering a table: skip a row that throws, build the empty row, and collect row ids for the availability loader.

The model is split into these modules:

| module | file | content |
|---|---|---|
| `Wrappers` | `wrappers.dfy` | `Option` and `Completion` (a value or a thrown error) |
| `Js` | `js.dfy` | JavaScript values, truthiness, `String(v)`, `parseInt`, `trim`, `toLowerCase` on Latin and Cyrillic letters, `includes`, `split`/`join` |
| `OrderedMap` | `ordered_map.dfy` | a map that remembers insertion order; it stands for plain objects (`filters`, the request parameters) and for the `Map` used as cache |
| `Json` | `json.dfy` | `JSON.stringify` of a flat object of primitives, used as the cache key |
| `RenderProducts` | `render_products.dfy` | the renderer: cell values as functions, and `RenderProductsTable` and `LoadDynamicData` as methods over the product list |
| `ManagerModel` | `manager_model.dfy` | the manager's fields as a `State` value, with one transition function per operation; these are the specification of the class |
| `ManagerProperties` | `manager_properties.dfy` | lemmas about the transitions: cache behaviour, parameter building, each mutation, single-flight fetching, restore round trip |
| `ProductsManager` | `products_manager.dfy` | `class Manager` with the source's fields; every method is proved to move `Model()` exactly as the matching transition does, and to keep `Valid()` |

`fetchProducts` is asynchronous, so it is modelled in two steps:

- `Fetch` runs up to the awaited request: the loading guard, the parameters, the cache key and the cache lookup. A cache hit is handled at once.
- `ResolveFetch` runs from the arrival of the response (or of a failure) to the `finally` block.

Between the two steps `isLoading` is set and the request is "in flight", and any other operation may run. `ManagerProperties.Step` names every operation as an `Action`. `Enabled` says when each can happen: the timer fires only while it runs, a response arrives only for a request in flight, and a page button is clicked only while its `disabled` flag is clear. `StepKeepsInv`, `SingleFlight` and `StepFacts` cover them all: every operation keeps the invariant, at most one request is outstanding, and a request is only issued when none is.

Effects that leave the manager go into a ghost event log, in the order they happen: saving state, issuing a request, rendering the table or the empty state, showing a toast, asking for availability data. The clock, the city selector's value, the contents of local storage, the URL's `search` parameter and the network's answer are parameters.

Where the code does something the design does not obviously intend, the model follows the code:

- An operation that runs while a request is in flight still changes the state and saves it. Only its own fetch is refused, so the in-flight response is rendered against the new state.
- A response is stored in the cache before anyone checks it, so an answer with `success: false` is cached too and is served again for five minutes.
- The cache key is the JSON text of the parameters, so the same filters set in a different order give a different key (`CacheKeyDependsOnFilterOrder`).
- The renderer collects every row's id for the availability loader, ids that are 0 or do not parse included. A successful result can therefore lead to two availability requests. The manager asks only when there are products and at least one of them has a positive id. The renderer asks only when at least one row was built. The two id lists can differ (`EnrichmentIdsDiffer`).
- When `images` is empty and the first comma-separated piece of `image_urls` is blank, the image is the empty text. The code does not fall back to `image_url` in that case.
- `updatePagination` sets the page buttons' `disabled` flags only when a successful result is handled, so the flags can lag behind the page between a change and its result. A page restored from local storage can lie past the last page of the first result. That result disables the next buttons, and a previous click then jumps straight to the last page, because `changePage` clamps: from page 5 of 3 it goes to page 3 (`DisabledButtonsAreNoOps`).

## Model

| member | source | states |
|---|---|---|
| `Js.ParseDecimalText` | src/js/renderProducts.js:683 | `parseInt` reads back exactly the integer that `String` wrote, which is how ids travel through the row attribute |
| `Js.TrimIdempotent` | src/js/ProductsManager.js:233 | trimming a trimmed query changes nothing |
| `Js.SplitJoin` | src/js/renderProducts.js:563 | splitting at commas loses no text: joining the pieces gives the original back |
| `OrderedMap.SetSpec` | src/js/ProductsManager.js:606 | setting a key stores the value and leaves other keys alone; a new key goes last and an existing key keeps its place |
| `OrderedMap.DeleteSpec` | src/js/ProductsManager.js:556 | deleting a key removes only that key and keeps the order of the rest |
| `Json.PlainTextUnescaped` | src/js/ProductsManager.js:289 | text without quotes, backslashes or control characters appears unchanged in the JSON text |
| `RenderProducts.IdAttributeRoundTrip` | src/js/renderProducts.js:79 | the product-id attribute is never empty, and parsing it gives the product id back (a missing id parses to NaN) |
| `RenderProducts.CodeLabel` | src/js/renderProducts.js:155 | the code cell shows the external id, else the code, else a dash, and is never empty |
| `RenderProducts.ProductLink` | src/js/renderProducts.js:179 | the product link uses the external id, or the product id when the external id is falsy |
| `RenderProducts.TrimEach` | src/js/renderProducts.js:563 | every piece is trimmed and none is lost or reordered |
| `RenderProducts.ProductImage` | src/js/renderProducts.js:558-570 | precedence is a non-empty `images`, then the first trimmed piece of a truthy `image_urls`, then a truthy `image_url`, then the placeholder; a truthy `image_urls` that is not text throws |
| `RenderProducts.ImageUrlsShadowImageUrl` | src/js/renderProducts.js:562-566 | a non-empty `image_urls` text always wins over `image_url`, and the chosen URL contains no comma |
| `RenderProducts.AltText` | src/js/renderProducts.js:184 | the alt text is the product's name when that is truthy, otherwise the default word; it is never empty |
| `RenderProducts.StatusLabel` | src/js/renderProducts.js:285-303 | it throws exactly for a truthy status that is not text; otherwise it shows one of the two labels, and the inactive label exactly when the lower-cased status is `inactive` or its Russian equivalent |
| `RenderProducts.StatusExamples` | src/js/renderProducts.js:285-286 | a missing or empty status shows as active; a numeric status throws |
| `RenderProducts.StatusIgnoresLatinCase` | src/js/renderProducts.js:286-298 | `INACTIVE` in capitals shows as inactive |
| `RenderProducts.StatusIgnoresCyrillicCase` | src/js/renderProducts.js:293-298 | the capitalised Russian word for inactive shows as inactive |
| `RenderProducts.MinSaleLabel` | src/js/renderProducts.js:317 | the minimum batch is the product's value when truthy, else 1 |
| `RenderProducts.UnitLabel` | src/js/renderProducts.js:318 | the unit is the product's value when truthy, else pieces |
| `RenderProducts.AvailabilityLabel` | src/js/renderProducts.js:336-351 | an unknown quantity shows the pending dots; a known one shows the count in pieces when it parses positive, else "none" |
| `RenderProducts.AvailabilityOfNumber` | src/js/renderProducts.js:337-346 | a numeric quantity `n` shows as `n` pieces exactly when `n > 0` |
| `RenderProducts.DeliveryLabel` | src/js/renderProducts.js:363 | delivery shows the date, else the text, else the pending dots, and is never empty |
| `RenderProducts.OrdersLabel` | src/js/renderProducts.js:539-549 | the badge shows the decimal text of the parsed order count when that is positive, and `0` otherwise; it always parses back to that non-negative number |
| `RenderProducts.BuildRow` | src/js/renderProducts.js:77-131 | building a row throws exactly when the image or the status throws; a built row's id round-trips, and each of its eleven cells is the matching label above |
| `RenderProducts.BuildAll` | src/js/renderProducts.js:55-62 | every product is tried once, in list order |
| `RenderProducts.KeptAppend` | src/js/renderProducts.js:55-62 | the rows kept from two runs of attempts are the rows of each, in order |
| `RenderProducts.RenderedAppend` | src/js/renderProducts.js:55-62 | rendering a concatenated list gives the concatenation of the renderings |
| `RenderProducts.RowErrorIsolated` | src/js/renderProducts.js:56-61 | a product whose row throws is skipped; the rows before and after it are rendered as they would be without it |
| `RenderProducts.KeptAllNormal` | src/js/renderProducts.js:55-62 | when no attempt throws, every attempt's row is kept in place |
| `RenderProducts.RenderedAllRows` | src/js/renderProducts.js:55-62 | when no row throws, there is exactly one row per product, in order |
| `RenderProducts.RenderedAtMostOneRowEach` | src/js/renderProducts.js:55-62 | there are never more rows than products |
| `RenderProducts.RowIdsOfRendered` | src/js/renderProducts.js:676-685 | the ids collected from the rows are exactly the ids of the products whose rows were built, in order, unfiltered |
| `RenderProducts.LoadDynamicData` | src/js/renderProducts.js:676-691 | availability is requested for the collected ids, and only when there is at least one |
| `RenderProducts.RenderProductsTable` | src/js/renderProducts.js:32-72 | without a table body nothing happens; with no products the empty row is shown; otherwise the rows are the rendering of the list and availability is requested for their ids |
| `ManagerModel.Initial` | src/js/ProductsManager.js:18-32 | the initial fields satisfy the manager's invariant |
| `ManagerModel.ClampPage` | src/js/ProductsManager.js:487 | the page is at least 1, an in-range page is kept, and a page past a non-zero last page becomes the last page |
| `ManagerModel.CeilDiv` | src/js/ProductsManager.js:355 | the page count is the least number of pages of the given size that holds the total |
| `ManagerModel.SortKeyFor` | src/js/ProductsManager.js:514-522 | the sort key a column selects is never empty |
| `ManagerModel.CityId` | src/js/ProductsManager.js:272 | the city id is the selector's value when non-empty, and never empty |
| `ManagerModel.BaseParams` | src/js/ProductsManager.js:268-273 | every request starts with page, limit, sort and city id, in that order |
| `ManagerModel.PositiveIds` | src/js/ProductsManager.js:400 | the manager asks availability for exactly the positive product ids |
| `ManagerModel.OrInt` | src/js/ProductsManager.js:100-101 | a restored number is kept unless it is missing or 0 |
| `ManagerModel.OrText` | src/js/ProductsManager.js:102-103 | a restored text is kept unless it is missing or empty |
| `ManagerModel.PageFromText` | src/js/ProductsManager.js:175 | a page typed into a page input is the parsed number, or 1 when it is NaN or 0 |
| `ManagerProperties.HandleResultKeeps` | src/js/ProductsManager.js:349-376 | handling a result never touches the inputs, the cache or the loading flag, and issues no request |
| `ManagerProperties.HandleResultSuccess` | src/js/ProductsManager.js:350-371 | on success the products and total are taken, the page count covers the total, the page buttons are disabled on page 1 and from the last page on, the table is rendered, and availability is loaded exactly when some product has a positive id |
| `ManagerProperties.HandleResultFailure` | src/js/ProductsManager.js:372-375 | an unsuccessful response only renders the empty state |
| `ManagerProperties.PositiveIdsAppend` | src/js/ProductsManager.js:400 | the positive ids of a concatenation are those of each part, in order |
| `ManagerProperties.FetchWhileLoading` | src/js/ProductsManager.js:258-261 | a fetch while loading changes nothing |
| `ManagerProperties.FetchSpec` | src/js/ProductsManager.js:263-302 | a fresh cache entry is handled at once without a request; otherwise a stale entry is dropped, one request with the built parameters is issued and loading begins |
| `ManagerProperties.ResolveSpec` | src/js/ProductsManager.js:299-314 | on arrival the response is cached under the request's key and then handled; on failure an error toast and the empty state; either way loading ends |
| `ManagerProperties.FetchCompletes` | src/js/ProductsManager.js:257-315 | a whole fetch ends not loading, keeps the invariant and issues at most one request |
| `ManagerProperties.RefetchWithinTimeout` | src/js/ProductsManager.js:596-603 | fetching the same parameters again within five minutes of the answer issues no request; after that it issues one |
| `ManagerProperties.CacheLookupSpec` | src/js/ProductsManager.js:596-603 | a lookup hits exactly for a stored key younger than the timeout, returning its data and leaving the cache unchanged; a miss removes only that key |
| `ManagerProperties.CacheStoreSpec` | src/js/ProductsManager.js:605-616 | storing keeps the cache at most fifty entries and makes the new entry readable |
| `ManagerProperties.CacheStoreWithoutEviction` | src/js/ProductsManager.js:606-609 | below capacity, or for a key already present, storing changes only that key and keeps the key order |
| `ManagerProperties.CacheStoreEvictsEarliest` | src/js/ProductsManager.js:611-615 | storing a new key into a full cache drops exactly the earliest key |
| `ManagerProperties.StoreThenLookup` | src/js/ProductsManager.js:596-616 | a stored response is found again exactly while it is younger than the timeout |
| `ManagerProperties.ClearCacheMisses` | src/js/ProductsManager.js:618-620 | after clearing, every lookup misses |
| `ManagerProperties.CommitSpec` | src/js/ProductsManager.js:492-493 | saving then fetching records the saved snapshot first, keeps the inputs and the invariant, and issues at most one request, none while loading; when the fetch runs, the cache is what its lookup of the new parameters leaves |
| `ManagerProperties.ChangePageSpec` | src/js/ProductsManager.js:486-494 | the page becomes the clamped page; nothing happens exactly when that is the current page; otherwise the state is saved and fetched |
| `ManagerProperties.ChangeItemsPerPageSpec` | src/js/ProductsManager.js:499-506 | nothing happens exactly when the size is unchanged; otherwise the size is set, the page resets to 1, and the state is saved and fetched |
| `ManagerProperties.HandleSearchSpec` | src/js/ProductsManager.js:232-252 | a trimmed query equal to the last one changes nothing; otherwise it becomes the last query and the search filter (removed when empty), other filters stay, the page resets to 1, no other input changes, and the state is saved and fetched |
| `ManagerProperties.FetchKeepsInputs` | src/js/ProductsManager.js:257-315 | fetching never changes the paging, sorting, filter or search fields |
| `ManagerProperties.RepeatedSearchIsNoOp` | src/js/ProductsManager.js:233-237 | searching again for the same text, padded with spaces, changes nothing |
| `ManagerProperties.NextSortTable` | src/js/ProductsManager.js:514-528 | the next sort key for every column; the price column toggles between ascending and descending |
| `ManagerProperties.PriceKeys` | src/js/ProductsManager.js:522-524 | among the keys a column selects, only the price key contains `price` |
| `ManagerProperties.SortProductsSpec` | src/js/ProductsManager.js:511-533 | sorting sets the next sort key and resets the page to 1; no other input changes; the state is saved and fetched |
| `ManagerProperties.HandleFilterChangeSpec` | src/js/ProductsManager.js:538-550 | a truthy value sets the filter, a falsy one removes it; other filters stay; the page resets to 1; no other input changes; the state is saved and fetched |
| `ManagerProperties.RemoveFilterSpec` | src/js/ProductsManager.js:555-560 | only the named filter is removed, the others keep their order; the page resets to 1; no other input changes; the state is saved and fetched |
| `ManagerProperties.ClearAllFiltersSpec` | src/js/ProductsManager.js:565-578 | all filters, the last query and the search box are emptied; the page resets to 1; no other input changes; the state is saved and fetched |
| `ManagerProperties.CityChangedSpec` | src/js/ProductsManager.js:189-194 | a city change empties the cache and, unless loading, issues a request for the new city |
| `ManagerProperties.MutationWhileLoading` | src/js/ProductsManager.js:258-261 | a page change while a request is in flight issues no request and leaves it in flight |
| `ManagerProperties.DisabledButtonsAreNoOps` | src/js/ProductsManager.js:445-451 | for a page in range, a click on a button `updatePagination` disables changes nothing; past the last page the next buttons are disabled although a click would move back, and a previous click lands on the last page |
| `ManagerProperties.PaginationAfterChange` | src/js/ProductsManager.js:446 | after a page change the page stays in range, and the next update disables the previous buttons exactly on page 1 |
| `ManagerProperties.PageEnteredDefault` | src/js/ProductsManager.js:173-177 | entering text that does not parse goes to page 1 |
| `ManagerProperties.DebounceSubmitsLastText` | src/js/ProductsManager.js:132-137 | two inputs in a row leave one timer running, which searches for the later text |
| `ManagerProperties.EnterCancelsTimer` | src/js/ProductsManager.js:139-153 | Enter cancels the search timer; the search button leaves it alone |
| `ManagerProperties.CopyFiltersSpec` | src/js/ProductsManager.js:280-284 | every truthy filter other than `search` is copied under its own name; nothing else changes |
| `ManagerProperties.WithSearchSpec` | src/js/ProductsManager.js:268-278 | before the filters are copied, the parameters are the base four plus `q` when the search filter is truthy |
| `ManagerProperties.QueryParamsOrder` | src/js/ProductsManager.js:268-284 | the parameters start with page, limit, sort and city id, and never carry a `search` key |
| `ManagerProperties.QueryParamsSearch` | src/js/ProductsManager.js:276-284 | `q` is a truthy `q` filter, else a truthy search filter, else absent |
| `ManagerProperties.QueryParamsBase` | src/js/ProductsManager.js:268-284 | a truthy filter named like a base parameter overrides it; otherwise the state's value is sent |
| `ManagerProperties.QueryParamsFilters` | src/js/ProductsManager.js:280-284 | every other parameter is present exactly when its filter is truthy, with the filter's value |
| `ManagerProperties.ParamsBrandFirst` | src/js/ProductsManager.js:268-284 | with brand set before category, the parameters list brand first |
| `ManagerProperties.ParamsCategoryFirst` | src/js/ProductsManager.js:268-284 | with category set before brand, the parameters list category first |
| `ManagerProperties.SwappedKeysDiffer` | src/js/ProductsManager.js:289 | swapping the last two members of the parameters changes their JSON text |
| `ManagerProperties.CacheKeyDependsOnFilterOrder` | src/js/ProductsManager.js:280-289 | two filter sets with the same contents in different orders give different cache keys |
| `ManagerProperties.RestoreDefaults` | src/js/ProductsManager.js:95-110 | nothing stored or unparsable text leaves the state alone; each missing or falsy field takes its default |
| `ManagerProperties.RestoreRoundTrip` | src/js/ProductsManager.js:95-124 | restoring what was saved gives back the saved paging, sorting and filters |
| `ManagerProperties.RestoreKeepsInv` | src/js/ProductsManager.js:95-110 | restoring keeps the invariant |
| `ManagerProperties.InitRequestsOnce` | src/js/ProductsManager.js:43-70 | start-up with a product table issues exactly one request, for the restored state with the URL's search applied; without a table it issues none |
| `ManagerProperties.StepKeepsInv` | src/js/ProductsManager.js:129-195 | every operation keeps the invariant and only appends to the event log |
| `ManagerProperties.SingleFlight` | src/js/ProductsManager.js:257-263 | an operation issues at most one request and none while loading, a new request leaves the manager loading, and only the response ends a request in flight |
| `ManagerProperties.StepFacts` | src/js/ProductsManager.js:129-195 | the invariant and the single-flight facts together, for every operation |
| `ManagerProperties.FetchFacts` | src/js/ProductsManager.js:257-315 | a fetch keeps the invariant and the single-flight facts |
| `ManagerProperties.CommitFacts` | src/js/ProductsManager.js:492-493 | saving then fetching keeps the invariant and the single-flight facts |
| `ManagerProperties.PageFacts` | src/js/ProductsManager.js:486-494 | a page change keeps the invariant and the single-flight facts |
| `ManagerProperties.SearchFacts` | src/js/ProductsManager.js:232-252 | a search keeps the invariant and the single-flight facts |
| `ManagerProperties.PageSizeFacts` | src/js/ProductsManager.js:499-506 | a page-size change keeps the invariant and the single-flight facts |
| `ManagerProperties.SortFacts` | src/js/ProductsManager.js:511-533 | a sort change keeps the invariant and the single-flight facts |
| `ManagerProperties.FilterChangeFacts` | src/js/ProductsManager.js:538-550 | a filter change keeps the invariant and the single-flight facts |
| `ManagerProperties.RemoveFacts` | src/js/ProductsManager.js:555-560 | removing a filter keeps the invariant and the single-flight facts |
| `ManagerProperties.ClearAllFacts` | src/js/ProductsManager.js:565-578 | clearing the filters keeps the invariant and the single-flight facts |
| `ManagerProperties.CityFacts` | src/js/ProductsManager.js:189-194 | a city change keeps the invariant and the single-flight facts |
| `ManagerProperties.ResolveKeepsInv` | src/js/ProductsManager.js:299-314 | the end of a request keeps the invariant |
| `ManagerProperties.SearchFilter` | src/js/ProductsManager.js:242-246 | a non-empty query becomes the `search` filter and an empty one removes it; the other filters stay |
| `ManagerProperties.EnrichmentIdsDiffer` | src/js/ProductsManager.js:400 | a rendered product with id 0 is left out of the manager's availability request but kept in the renderer's |
| `ProductsManager.Manager.constructor` | src/js/ProductsManager.js:9-38 | the fields start as the initial state, which satisfies the invariant |
| `ProductsManager.Manager.GetFromCache` | src/js/ProductsManager.js:596-603 | returns the lookup's result and moves the cache as the lookup does, nothing else |
| `ProductsManager.Manager.SaveToCache` | src/js/ProductsManager.js:605-616 | the cache becomes the stored cache, nothing else changes |
| `ProductsManager.Manager.ClearCache` | src/js/ProductsManager.js:618-620 | the cache becomes empty, nothing else changes |
| `ProductsManager.Manager.BuildParams` | src/js/ProductsManager.js:268-284 | the loop builds exactly the parameters of the current state |
| `ProductsManager.Manager.SaveState` | src/js/ProductsManager.js:115-124 | records the snapshot of the fields, nothing else changes |
| `ProductsManager.Manager.RenderEmptyState` | src/js/ProductsManager.js:390-394 | records the empty state, nothing else changes |
| `ProductsManager.Manager.LoadDynamicData` | src/js/ProductsManager.js:399-411 | asks availability for the positive ids when there are any, nothing else changes |
| `ProductsManager.Manager.UpdatePagination` | src/js/ProductsManager.js:445-451 | the previous buttons become disabled exactly on page 1 or below, the next buttons exactly from the last page on; nothing else changes |
| `ProductsManager.Manager.HandleSearchResult` | src/js/ProductsManager.js:349-376 | moves the fields as handling the result does, the page-button flags included |
| `ProductsManager.Manager.FetchProducts` | src/js/ProductsManager.js:257-296 | moves the fields as the first step of a fetch does |
| `ProductsManager.Manager.ServeCached` | src/js/ProductsManager.js:292-313 | a cached response is handled and the loading flag then lowered, which is handling it with the flag down |
| `ProductsManager.Manager.ResolveReceived` | src/js/ProductsManager.js:302-313 | moves the fields as the second step does when the response arrives |
| `ProductsManager.Manager.ResolveFailed` | src/js/ProductsManager.js:307-313 | moves the fields as the second step does when the request fails |
| `ManagerProperties.HandleResultIgnoresLoading` | src/js/ProductsManager.js:349-376 | result handling neither reads nor writes the loading flag |
| `ProductsManager.Manager.ResolveFetch` | src/js/ProductsManager.js:299-314 | moves the fields as the second step does; loading ends and the invariant holds |
| `ProductsManager.Manager.ChangePage` | src/js/ProductsManager.js:486-494 | moves the fields as `ChangePage` does, keeping the invariant |
| `ProductsManager.Manager.ChangeItemsPerPage` | src/js/ProductsManager.js:499-506 | moves the fields as `ChangeItemsPerPage` does, keeping the invariant |
| `ProductsManager.Manager.HandleSearch` | src/js/ProductsManager.js:232-252 | moves the fields as `HandleSearch` does, keeping the invariant |
| `ProductsManager.Manager.ApplySearch` | src/js/ProductsManager.js:240-251 | stores the new term as the last query and the `search` filter (removed when empty), resets the page to 1, then saves and fetches |
| `ProductsManager.Manager.SortProducts` | src/js/ProductsManager.js:511-533 | moves the fields as `SortProducts` does, keeping the invariant |
| `ProductsManager.Manager.HandleFilterChange` | src/js/ProductsManager.js:538-550 | moves the fields as `HandleFilterChange` does, keeping the invariant |
| `ProductsManager.Manager.RemoveFilter` | src/js/ProductsManager.js:555-560 | moves the fields as `RemoveFilter` does, keeping the invariant |
| `ProductsManager.Manager.ClearAllFilters` | src/js/ProductsManager.js:565-578 | moves the fields as `ClearAllFilters` does, keeping the invariant |
| `ProductsManager.Manager.CityChanged` | src/js/ProductsManager.js:189-194 | clears the cache and fetches, keeping the invariant |
| `ProductsManager.Manager.OnSearchInput` | src/js/ProductsManager.js:132-137 | takes the typed text and restarts the search timer |
| `ProductsManager.Manager.OnDebounceTimer` | src/js/ProductsManager.js:134-136 | the timer's search for the box's text, keeping the invariant |
| `ProductsManager.Manager.OnSearchEnter` | src/js/ProductsManager.js:139-145 | cancels the timer and searches at once, keeping the invariant |
| `ProductsManager.Manager.OnSearchButton` | src/js/ProductsManager.js:149-154 | searches for the box's text, keeping the invariant |
| `ProductsManager.Manager.OnPageInputEnter` | src/js/ProductsManager.js:172-179 | goes to the typed page, or page 1, keeping the invariant |
| `ProductsManager.Manager.OnPrevClick` | src/js/ProductsManager.js:164-166 | on an enabled button, asks for the previous page, keeping the invariant |
| `ProductsManager.Manager.OnNextClick` | src/js/ProductsManager.js:168-170 | on an enabled button, asks for the next page, keeping the invariant |
| `ProductsManager.Manager.RestoreState` | src/js/ProductsManager.js:95-110 | moves the fields as `Restore` does, keeping the invariant |
| `ProductsManager.Manager.CheckUrlParams` | src/js/ProductsManager.js:200-218 | a non-empty URL search becomes the search filter, the last query and the box's text |
| `ProductsManager.Manager.Init` | src/js/ProductsManager.js:43-70 | restores, applies the URL, and fetches when the table is present, keeping the invariant |

## Left out

- The DOM, styles, console output and the loading indicator. `renderEmptyState` is modelled as one event, and its table body is assumed present.
- The name, SKU, brand/series, price, retail price, cart and actions cells. They never throw and affect no modelled state.
- The singleton guard in the constructor, `findElements`, `syncGlobalVariables` (the global product list is passed to the renderer directly), `updateCounters` and `updateActiveFilters`.
- `makeApiRequest`'s URL building and HTTP exchange. The network's answer is a parameter, and a thrown request is one failure value.
- `loadAvailability` and `showToast` belong to other modules and are recorded as events. `showLoadingIndicator` and `hideLoadingIndicator` are not modelled.
- `loadPage`: it only calls `changePage`, which is modelled.
- Real timers and the clock. The 300 ms debounce timer is a flag plus a "timer fired" event, and `Date.now()` is a parameter.
- Floating point: `parseFloat`, fractional numbers, NaN and Infinity. Every number is an integer, a missing product id is `None`, and `parseInt` returning NaN is `None`.
- Object key enumeration rules: integer-like keys are listed first, and inherited keys such as `toString` are found by the sort map. Keys are kept in insertion order, and an unknown column selects the default sort.
- `toLowerCase` beyond the Latin and basic Cyrillic letters.
- Saved state or response fields of an unexpected type, such as a non-numeric saved page, a non-array product list or a null body. The restored fields and the payload are typed.
- `ProductsManager.Manager.ChangeItemsPerPage`: requires a non-zero size. The source turns the selector's text into a number that may be NaN or 0, and then divides by it. That is not modelled.
- `ManagerModel.CeilDiv`: requires a non-zero divisor for the same reason.
- `RenderProducts.RenderProductsTable`: takes the product list and whether the table body exists as parameters. It produces the rows and the availability request as values instead of appending them to the page.
