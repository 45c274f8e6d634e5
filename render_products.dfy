/** The value-selection rules of the product table renderer: which text each cell of a
    product row shows, which rows are built, and which ids are handed to the
    availability loader once the table is drawn. Element creation and styling are not
    modelled; a row is the record of the texts its cells show. */
module RenderProducts {
  import opened Wrappers
  import opened Js

  /** `product.stock` when it is an object; `quantity` is `Undefined` when missing. */
  datatype Stock = Stock(quantity: Value)

  /** `product.delivery` when it is an object. */
  datatype Delivery = Delivery(date: Value, text: Value)

  /** A product record of the search response. `images` is `Some` only when the field
      is an array; `stock` and `delivery` are `None` when the field is absent or not an
      object. */
  datatype Product = Product(
    productId: Option<int>,
    externalId: Value,
    code: Value,
    name: Value,
    images: Option<seq<Value>>,
    imageUrls: Value,
    imageUrl: Value,
    status: Value,
    minSale: Value,
    unit: Value,
    stock: Option<Stock>,
    delivery: Option<Delivery>,
    ordersCount: Value)

  const Placeholder := "/images/placeholder.jpg"
  const Dash := "—"
  const Pending := "..."
  const ActiveLabel := "Активен"
  const InactiveLabel := "Неактивен"
  const NoStockLabel := "Нет"
  const PieceUnit := "шт"
  const DefaultAlt := "Товар"
  const ProductPath := "/shop/product?id="

  /** The text of a row's product-id attribute: the product id converted to text. */
  function IdAttribute(id: Option<int>): string {
    ToText(OfInt(id))
  }

  /** The attribute is never empty, and `parseInt` reads the id back from it (a missing
      id reads back as NaN). */
  lemma IdAttributeRoundTrip(id: Option<int>)
    ensures IdAttribute(id) != ""
    ensures ParseIntText(IdAttribute(id)) == id
  {
    match id
    case Some(n) =>
      ParseDecimalText(n);
      TextEmptyExactlyForEmptyString(Num(n));
    case None =>
      var u := "undefined";
      assert !IsSpace(u[0]) && TrimStart(u) == u;
      assert !IsRadixDigit(u[0], 10) && DigitPrefix(u, 10) == [];
  }

  // ---------------------------------------------------------------------------
  // Cells

  /** The code cell: the external id, else the code, else a dash (falsy values skipped). */
  function CodeLabel(p: Product): (r: string)
    ensures Truthy(p.externalId) ==> r == ToText(p.externalId)
    ensures !Truthy(p.externalId) && Truthy(p.code) ==> r == ToText(p.code)
    ensures !Truthy(p.externalId) && !Truthy(p.code) ==> r == Dash
    ensures r != ""
  {
    TextEmptyExactlyForEmptyString(p.externalId);
    TextEmptyExactlyForEmptyString(p.code);
    ToText(Or(Or(p.externalId, p.code), Str(Dash)))
  }

  /** The product page that the image and the name link to: the product path followed
      by the external id, or by the product id when the external id is falsy. */
  function ProductLink(p: Product): (r: string)
    ensures Truthy(p.externalId) ==> r == ProductPath + ToText(p.externalId)
    ensures !Truthy(p.externalId) ==> r == ProductPath + IdAttribute(p.productId)
  {
    ProductPath + ToText(Or(p.externalId, OfInt(p.productId)))
  }

  /** Every piece trimmed, in order. */
  function TrimEach(parts: seq<string>): (r: seq<string>)
    ensures |r| == |parts|
    ensures forall i :: 0 <= i < |parts| ==> r[i] == Trim(parts[i])
  {
    if parts == [] then [] else [Trim(parts[0])] + TrimEach(parts[1..])
  }

  /** The first piece of a comma-separated list of URLs, trimmed. */
  function FirstListed(s: string): string {
    Trim(Split(s, ',')[0])
  }

  /** `getProductImage`: the first element of a non-empty `images` array, else the first
      trimmed piece of a truthy `image_urls` string, else a truthy `image_url`, else the
      placeholder. A truthy `image_urls` that is not a string throws (it has no `split`). */
  function ProductImage(p: Product): (r: Completion<Value>)
    ensures p.images.Some? && |p.images.value| > 0 ==> r == Normal(p.images.value[0])
    ensures !(p.images.Some? && |p.images.value| > 0) && Truthy(p.imageUrls) ==>
              r == if p.imageUrls.Str? then Normal(Str(FirstListed(p.imageUrls.s))) else Throws
    ensures !(p.images.Some? && |p.images.value| > 0) && !Truthy(p.imageUrls) ==>
              r == Normal(if Truthy(p.imageUrl) then p.imageUrl else Str(Placeholder))
  {
    if p.images.Some? && |p.images.value| > 0 then Normal(p.images.value[0])
    else if Truthy(p.imageUrls) then
      match p.imageUrls
      case Str(s) =>
        var urls := TrimEach(Split(s, ','));
        if |urls| > 0 then Normal(Str(urls[0]))
        else if Truthy(p.imageUrl) then Normal(p.imageUrl)
        else Normal(Str(Placeholder))
      case _ => Throws
    else if Truthy(p.imageUrl) then Normal(p.imageUrl)
    else Normal(Str(Placeholder))
  }

  /** A truthy `image_urls` string always decides the image, even when its first piece
      is blank: `split` never yields an empty list, so `image_url` is not consulted. */
  lemma ImageUrlsShadowImageUrl(p: Product)
    requires !(p.images.Some? && |p.images.value| > 0)
    requires p.imageUrls.Str? && p.imageUrls.s != ""
    ensures ProductImage(p).Normal?
    ensures ProductImage(p).value == Str(FirstListed(p.imageUrls.s))
    ensures forall i :: 0 <= i < |FirstListed(p.imageUrls.s)| ==> FirstListed(p.imageUrls.s)[i] != ','
  {
    var s := p.imageUrls.s;
    var first := Split(s, ',')[0];
    var t := FirstListed(s);
    var i :| OccursAt(first, t, i);
    forall j | 0 <= j < |t| ensures t[j] != ',' {
      assert t[j] == first[i + j];
    }
  }

  /** The `alt` text of the image: the name, or the word for "product" when it is falsy. */
  function AltText(p: Product): (r: string)
    ensures r != ""
    ensures Truthy(p.name) ==> r == ToText(p.name)
    ensures !Truthy(p.name) ==> r == DefaultAlt
  {
    TextEmptyExactlyForEmptyString(p.name);
    ToText(Or(p.name, Str(DefaultAlt)))
  }

  /** The status badge: the lower-cased status (`active` when it is falsy) chooses
      between the two labels; a truthy status that is not a string throws, having no
      method to lower its case. */
  function StatusLabel(status: Value): (r: Completion<string>)
    ensures r.Throws? <==> Truthy(status) && !status.Str?
    ensures r.Normal? ==> r.value == ActiveLabel || r.value == InactiveLabel
    ensures r.Normal? ==>
              (r.value == InactiveLabel <==>
                 status.Str? && (ToLower(status.s) == "inactive" || ToLower(status.s) == "неактивен"))
  {
    match Or(status, Str("active"))
    case Str(s) =>
      var lower := ToLower(s);
      if lower == "active" || lower == "активен" then Normal(ActiveLabel)
      else if lower == "inactive" || lower == "неактивен" then Normal(InactiveLabel)
      else Normal(ActiveLabel)
    case _ => Throws
  }

  /** A missing status reads as active, and the match ignores letter case. */
  lemma StatusExamples()
    ensures StatusLabel(Undefined) == Normal(ActiveLabel)
    ensures StatusLabel(Str("")) == Normal(ActiveLabel)
    ensures StatusLabel(Num(1)) == Throws
  {
    assert ToLower("active") == "active";
  }

  /** The match ignores letter case: an upper-case status still reads as inactive. */
  lemma StatusIgnoresLatinCase()
    ensures StatusLabel(Str("INACTIVE")) == Normal(InactiveLabel)
  {
    LowerLatin();
  }

  lemma LowerLatin()
    ensures ToLower("INACTIVE") == "inactive"
  {
    var upper := "INACTIVE";
    var lower := ToLower(upper);
    forall i | 0 <= i < |upper| ensures lower[i] == "inactive"[i] {
      assert 0x41 <= upper[i] as int <= 0x5A;
    }
  }

  /** The Russian label itself, capitalised, reads as inactive too. */
  lemma StatusIgnoresCyrillicCase()
    ensures StatusLabel(Str("Неактивен")) == Normal(InactiveLabel)
  {
    LowerCyrillic();
  }

  lemma LowerCyrillic()
    ensures ToLower("Неактивен") == "неактивен"
  {
    var upper := "Неактивен";
    var lower := ToLower(upper);
    forall i | 0 <= i < |upper| ensures lower[i] == "неактивен"[i] {
      if i == 0 {
        assert LowerChar(upper[0]) == 'н';
      } else {
        assert 0x430 <= upper[i] as int <= 0x44F;
      }
    }
  }

  /** The minimum batch cell: the minimum sale, or 1 when it is falsy. */
  function MinSaleLabel(p: Product): (r: string)
    ensures !Truthy(p.minSale) ==> r == "1"
    ensures Truthy(p.minSale) ==> r == ToText(p.minSale) && r != ""
  {
    TextEmptyExactlyForEmptyString(p.minSale);
    ToText(Or(p.minSale, Num(1)))
  }

  /** The unit under the minimum batch: the unit, or pieces when it is falsy. */
  function UnitLabel(p: Product): (r: string)
    ensures !Truthy(p.unit) ==> r == PieceUnit
    ensures Truthy(p.unit) ==> r == ToText(p.unit) && r != ""
  {
    TextEmptyExactlyForEmptyString(p.unit);
    ToText(Or(p.unit, Str(PieceUnit)))
  }

  /** Whether the availability loader has filled in a quantity. */
  predicate HasQuantity(p: Product) {
    p.stock.Some? && p.stock.value.quantity != Undefined
  }

  /** The availability badge: `"<qty> шт"` for a positive `parseInt(quantity)`, `'Нет'`
      for any other known quantity, `'...'` while the quantity is unknown. */
  function AvailabilityLabel(p: Product): (r: string)
    ensures !HasQuantity(p) ==> r == Pending
    ensures HasQuantity(p) ==>
              var q := ParseInt(p.stock.value.quantity);
              r == if q.Some? && q.value > 0 then DecimalText(q.value) + " " + PieceUnit else NoStockLabel
  {
    match p.stock
    case Some(st) =>
      if st.quantity != Undefined then
        var qty := ParseInt(st.quantity);
        if qty.Some? && qty.value > 0 then DecimalText(qty.value) + " " + PieceUnit else NoStockLabel
      else Pending
    case None => Pending
  }

  /** A numeric quantity shows as itself followed by the unit when positive and as
      `'Нет'` otherwise. */
  lemma AvailabilityOfNumber(p: Product, n: int)
    requires p.stock == Some(Stock(Num(n)))
    ensures n > 0 ==> AvailabilityLabel(p) == DecimalText(n) + " " + PieceUnit
    ensures n <= 0 ==> AvailabilityLabel(p) == NoStockLabel
  {
    ParseDecimalText(n);
    var q := ParseInt(p.stock.value.quantity);
    assert q.Some? && q.value == n;
    assert HasQuantity(p);
  }

  /** The delivery cell: the delivery date, else the delivery text, else the pending dots. */
  function DeliveryLabel(p: Product): (r: string)
    ensures r != ""
    ensures p.delivery.None? ==> r == Pending
    ensures p.delivery.Some? && Truthy(p.delivery.value.date) ==> r == ToText(p.delivery.value.date)
    ensures p.delivery.Some? && !Truthy(p.delivery.value.date) && Truthy(p.delivery.value.text) ==>
              r == ToText(p.delivery.value.text)
    ensures p.delivery.Some? && !Truthy(p.delivery.value.date) && !Truthy(p.delivery.value.text) ==>
              r == Pending
  {
    var date := if p.delivery.Some? then p.delivery.value.date else Undefined;
    var text := if p.delivery.Some? then p.delivery.value.text else Undefined;
    TextEmptyExactlyForEmptyString(date);
    TextEmptyExactlyForEmptyString(text);
    ToText(Or(Or(date, text), Str(Pending)))
  }

  /** The orders badge: the parsed order count (0 when it does not parse), shown when
      positive, `0` otherwise. The label always reads back as a count that is not negative. */
  function OrdersLabel(p: Product): (r: string)
    ensures ParseIntText(r).Some? && ParseIntText(r).value >= 0
    ensures var q := ParseInt(p.ordersCount);
            ParseIntText(r).value == if q.Some? && q.value > 0 then q.value else 0
    ensures var q := ParseInt(p.ordersCount);
            r == if q.Some? && q.value > 0 then DecimalText(q.value) else "0"
  {
    var parsed := ParseInt(p.ordersCount);
    var count := if parsed.Some? then parsed.value else 0;
    if count > 0 then
      ParseDecimalText(count);
      DecimalText(count)
    else
      ParseDecimalText(0);
      "0"
  }

  // ---------------------------------------------------------------------------
  // Rows and the table

  /** The texts a built row shows, cell by cell. */
  datatype Row = Row(
    productId: string,
    code: string,
    link: string,
    image: string,
    alt: string,
    status: string,
    minSale: string,
    unit: string,
    availability: string,
    delivery: string,
    orders: string)

  /** `createProductRow`: the cells in column order; the image cell and the status cell
      are the two that can throw, and either aborts the row. */
  function BuildRow(p: Product): (r: Completion<Row>)
    ensures r.Throws? <==> ProductImage(p).Throws? || StatusLabel(p.status).Throws?
    ensures r.Normal? ==> r.value.productId != "" && ParseIntText(r.value.productId) == p.productId
    ensures r.Normal? ==> r.value.code == CodeLabel(p) && r.value.status == StatusLabel(p.status).value
                          && r.value.image == ToText(ProductImage(p).value)
                          && r.value.availability == AvailabilityLabel(p)
    ensures r.Normal? ==>
              r.value == Row(IdAttribute(p.productId), CodeLabel(p), ProductLink(p), ToText(ProductImage(p).value),
                             AltText(p), StatusLabel(p.status).value, MinSaleLabel(p), UnitLabel(p),
                             AvailabilityLabel(p), DeliveryLabel(p), OrdersLabel(p))
  {
    IdAttributeRoundTrip(p.productId);
    match ProductImage(p)
    case Throws => Throws
    case Normal(img) =>
      match StatusLabel(p.status)
      case Throws => Throws
      case Normal(status) =>
        Normal(Row(IdAttribute(p.productId), CodeLabel(p), ProductLink(p), ToText(img), AltText(p),
                   status, MinSaleLabel(p), UnitLabel(p), AvailabilityLabel(p), DeliveryLabel(p),
                   OrdersLabel(p)))
  }

  /** The rows that survive a list of row completions: the built ones, in order. */
  function Kept(cs: seq<Completion<Row>>): seq<Row> {
    if cs == [] then []
    else Kept(cs[..|cs| - 1]) + (if cs[|cs| - 1].Normal? then [cs[|cs| - 1].value] else [])
  }

  /** The completion of every product's row, in list order. */
  function BuildAll(ps: seq<Product>): (cs: seq<Completion<Row>>)
    ensures |cs| == |ps|
    ensures forall i :: 0 <= i < |ps| ==> cs[i] == BuildRow(ps[i])
  {
    if ps == [] then [] else BuildAll(ps[..|ps| - 1]) + [BuildRow(ps[|ps| - 1])]
  }

  /** The rows of a product list, in list order, skipping the rows that throw. */
  function Rendered(ps: seq<Product>): seq<Row> {
    Kept(BuildAll(ps))
  }

  lemma {:induction false} KeptAppend(a: seq<Completion<Row>>, b: seq<Completion<Row>>)
    ensures Kept(a + b) == Kept(a) + Kept(b)
    decreases |b|
  {
    if b == [] {
      assert a + b == a;
    } else {
      var c := b[..|b| - 1];
      assert (a + b)[..|a + b| - 1] == a + c;
      assert (a + b)[|a + b| - 1] == b[|b| - 1];
      KeptAppend(a, c);
    }
  }

  lemma BuildAllAppend(a: seq<Product>, b: seq<Product>)
    ensures BuildAll(a + b) == BuildAll(a) + BuildAll(b)
  {
    var l, r := BuildAll(a + b), BuildAll(a) + BuildAll(b);
    forall i | 0 <= i < |l| ensures l[i] == r[i] {
      assert (a + b)[i] == if i < |a| then a[i] else b[i - |a|];
    }
  }

  lemma RenderedAppend(a: seq<Product>, b: seq<Product>)
    ensures Rendered(a + b) == Rendered(a) + Rendered(b)
  {
    BuildAllAppend(a, b);
    KeptAppend(BuildAll(a), BuildAll(b));
  }

  /** Per-row isolation: a product whose row throws is skipped and the rows before and
      after it are rendered exactly as without it. */
  lemma RowErrorIsolated(before: seq<Product>, bad: Product, after: seq<Product>)
    requires BuildRow(bad).Throws?
    ensures Rendered(before + [bad] + after) == Rendered(before) + Rendered(after)
  {
    RenderedAppend(before + [bad], after);
    RenderedAppend(before, [bad]);
    RenderedThrowing(bad);
    assert Rendered(before) + [] == Rendered(before);
  }

  /** A single product whose row throws renders into no row. */
  lemma RenderedThrowing(bad: Product)
    requires BuildRow(bad).Throws?
    ensures Rendered([bad]) == []
  {
    var one := BuildAll([bad]);
    assert one[0].Throws?;
    assert one[..|one| - 1] == [];
    assert Kept(one) == Kept([]) + [];
  }

  lemma {:induction false} KeptAllNormal(cs: seq<Completion<Row>>)
    requires forall i :: 0 <= i < |cs| ==> cs[i].Normal?
    ensures |Kept(cs)| == |cs|
    ensures forall i :: 0 <= i < |cs| ==> Kept(cs)[i] == cs[i].value
  {
    if cs != [] {
      var init := cs[..|cs| - 1];
      assert forall i :: 0 <= i < |init| ==> init[i] == cs[i];
      KeptAllNormal(init);
    }
  }

  /** When no row throws, every product has its row, in list order. */
  lemma RenderedAllRows(ps: seq<Product>)
    requires forall i :: 0 <= i < |ps| ==> BuildRow(ps[i]).Normal?
    ensures |Rendered(ps)| == |ps|
    ensures forall i :: 0 <= i < |ps| ==> Rendered(ps)[i] == BuildRow(ps[i]).value
  {
    KeptAllNormal(BuildAll(ps));
  }

  lemma {:induction false} KeptAtMostOneEach(cs: seq<Completion<Row>>)
    ensures |Kept(cs)| <= |cs|
  {
    if cs != [] {
      KeptAtMostOneEach(cs[..|cs| - 1]);
    }
  }

  /** No list renders into more rows than it has products. */
  lemma RenderedAtMostOneRowEach(ps: seq<Product>)
    ensures |Rendered(ps)| <= |ps|
  {
    KeptAtMostOneEach(BuildAll(ps));
  }

  /** The ids the renderer's `loadDynamicData` collects: `parseInt` of every row's
      `data-product-id` that is not empty, in row order (`None` is NaN). */
  function RowIds(rows: seq<Row>): seq<Option<int>> {
    if rows == [] then []
    else
      var last := rows[|rows| - 1];
      RowIds(rows[..|rows| - 1]) + (if last.productId != "" then [ParseIntText(last.productId)] else [])
  }

  /** The product ids of the products whose rows are built, in list order. */
  function RenderedProductIds(ps: seq<Product>): seq<Option<int>> {
    if ps == [] then []
    else
      var last := ps[|ps| - 1];
      RenderedProductIds(ps[..|ps| - 1]) + (if BuildRow(last).Normal? then [last.productId] else [])
  }

  /** The renderer hands the loader exactly the ids of the rendered products, in order:
      it does not drop NaN or non-positive ids. */
  lemma {:induction false} RowIdsOfRendered(ps: seq<Product>)
    ensures RowIds(Rendered(ps)) == RenderedProductIds(ps)
  {
    if ps != [] {
      var init := ps[..|ps| - 1];
      var last := ps[|ps| - 1];
      RowIdsOfRendered(init);
      assert ps == init + [last];
      RenderedAppend(init, [last]);
      var one := BuildAll([last]);
      assert one[..0] == [];
      IdAttributeRoundTrip(last.productId);
      var rows := Rendered(ps);
      if BuildRow(last).Normal? {
        assert Kept(one) == [BuildRow(last).value];
        assert rows[..|rows| - 1] == Rendered(init);
      } else {
        assert Kept(one) == [];
        assert rows == Rendered(init);
      }
    }
  }

  /** What `renderProductsTable` leaves behind. */
  datatype TableOutcome =
    | NoTableBody
      /** the table body is missing: nothing is drawn */
    | EmptyRow
      /** the single "not found" row; no enrichment */
    | Table(rows: seq<Row>, availabilityRequest: Option<seq<Option<int>>>)
      /** the rows drawn and the ids passed to the availability loader, if it is called */

  /** The renderer's `loadDynamicData`: collect the ids of the drawn rows and call the
      availability loader only when there is at least one. */
  method LoadDynamicData(rows: seq<Row>) returns (request: Option<seq<Option<int>>>)
    ensures request.Some? ==> request.value != [] && request.value == RowIds(rows)
    ensures request.None? ==> RowIds(rows) == []
  {
    var ids: seq<Option<int>> := [];
    var i := 0;
    while i < |rows|
      invariant 0 <= i <= |rows|
      invariant ids == RowIds(rows[..i])
    {
      var attribute := rows[i].productId;
      if attribute != "" {
        ids := ids + [ParseIntText(attribute)];
      }
      assert rows[..i + 1][..i] == rows[..i];
      i := i + 1;
    }
    assert rows[..|rows|] == rows;
    request := if |ids| > 0 then Some(ids) else None;
  }

  /** `renderProductsTable` over `window.productsData` (`None` when it is not set). */
  method RenderProductsTable(data: Option<seq<Product>>, hasBody: bool) returns (out: TableOutcome)
    ensures !hasBody ==> out == NoTableBody
    ensures hasBody && (data.None? || data.value == []) ==> out == EmptyRow
    ensures hasBody && data.Some? && data.value != [] ==>
              out.Table? && out.rows == Rendered(data.value)
              && out.availabilityRequest == (if RowIds(out.rows) == [] then None else Some(RowIds(out.rows)))
  {
    if !hasBody {
      return NoTableBody;
    }
    if data.None? || |data.value| == 0 {
      return EmptyRow;
    }
    var ps := data.value;
    var rows: seq<Row> := [];
    var i := 0;
    while i < |ps|
      invariant 0 <= i <= |ps|
      invariant rows == Rendered(ps[..i])
    {
      assert ps[..i + 1][..i] == ps[..i];
      var built := BuildRow(ps[i]);
      if built.Normal? {
        rows := rows + [built.value];
      }
      i := i + 1;
    }
    assert ps[..|ps|] == ps;
    var request := LoadDynamicData(rows);
    out := Table(rows, request);
  }
}
