/** The product catalogue: the paginated, searchable, sortable listing with
    its separate count, and create, update and delete over the `products`
    table. */
module Products {
  import opened Common
  import opened JsText
  import opened Tables
  import opened Sorting
  import opened Collations
  import opened Categories

  datatype Product = Product(
    id: nat,
    name: Option<string>,
    description: Option<string>,
    price: Option<real>,
    imageUrl: Option<string>,
    categoryId: Option<int>,
    createdAt: int)

  /** A row of the listing: the product's columns and `c.name AS category_name`. */
  datatype ProductRow = ProductRow(product: Product, categoryName: string)

  /** The query string of `GET /products`, each parameter present or absent. */
  datatype ProductQuery = ProductQuery(
    page: Option<string>,
    limit: Option<string>,
    search: Option<string>,
    categoryId: Option<string>,
    sortBy: Option<string>,
    sortOrder: Option<string>)

  datatype SortKey = ByName | ByPrice

  datatype Direction = Asc | Desc

  /** The parameters after normalisation. */
  datatype Listing = Listing(
    page: int,
    limit: int,
    search: Option<string>,
    categoryId: Option<int>,
    sortBy: SortKey,
    direction: Direction)

  datatype Pagination = Pagination(page: int, limit: int, total: nat, totalPages: nat)

  datatype ProductPage = ProductPage(data: seq<ProductRow>, pagination: Pagination)

  /** The body of a create or update request; a field the client left out is `None`. */
  datatype ProductBody = ProductBody(
    name: Option<string>,
    description: Option<string>,
    price: Option<real>,
    imageUrl: Option<string>,
    categoryId: Option<int>)

  const DefaultPage: int := 1
  const DefaultLimit: int := 20

  const FetchFailed: Error := Error(500, "Failed to fetch products")
  const ProductFieldsRequired: Error := Error(400, "Name, price, and category are required")
  const InvalidProductId: Error := Error(400, "Invalid product ID")
  const ProductNotFound: Error := Error(404, "Product not found")
  const CreateFailed: Error := Error(500, "Failed to create product")
  const UpdateFailed: Error := Error(500, "Failed to update product")
  const DeleteFailed: Error := Error(500, "Failed to delete product")

  function ProductId(p: Product): int { p.id }

  // ---------------------------------------------------------------------
  // Normalising the query
  // ---------------------------------------------------------------------

  /** `parseInt(p) || fallback`: NaN and 0 are falsy and give `fallback`. */
  function IntOr(p: Option<string>, fallback: int): (n: int)
    ensures (ParseIntParam(p) == None || ParseIntParam(p) == Some(0)) ==> n == fallback
    ensures ParseIntParam(p).Some? && ParseIntParam(p).value != 0 ==> n == ParseIntParam(p).value
  {
    match ParseIntParam(p)
    case None => fallback
    case Some(v) => if v != 0 then v else fallback
  }

  /** `req.query.search?.trim() || null`: a missing or blank search is no search. */
  function SearchTerm(p: Option<string>): (t: Option<string>)
    ensures t.None? <==> p.None? || Trim(p.value) == ""
    ensures t.Some? ==> t.value == Trim(p.value) && t.value != ""
  {
    if p.Some? && Trim(p.value) != "" then Some(Trim(p.value)) else None
  }

  /** `category_id ? parseInt(category_id) : null`, then tested for truth: a
      category filter applies only when the parameter is given, non-empty
      and parses to a number other than 0 (NaN and 0 are falsy). */
  function CategoryParam(p: Option<string>): (c: Option<int>)
    ensures c.Some? <==> p.Some? && p.value != "" && ParseInt(p.value).Some? && ParseInt(p.value).value != 0
    ensures c.Some? ==> c == ParseInt(p.value)
  {
    var parsed := if p.Some? && p.value != "" then ParseInt(p.value) else None;
    if parsed.Some? && parsed.value != 0 then parsed else None
  }

  /** The normalisation of `getProducts`: page and limit default to 1 and 20;
      the sort is by price only for exactly `price` and descending only for
      exactly `desc`; a blank search is no search; a category id is used
      only when it is given and parses to a number other than 0. */
  function Normalize(q: ProductQuery): (n: Listing)
    ensures n.page == IntOr(q.page, DefaultPage) && n.limit == IntOr(q.limit, DefaultLimit)
    ensures n.page != 0 && n.limit != 0
    ensures n.sortBy == ByPrice <==> q.sortBy == Some("price")
    ensures n.direction == Desc <==> q.sortOrder == Some("desc")
    ensures n.search == SearchTerm(q.search)
    ensures n.categoryId == CategoryParam(q.categoryId)
  {
    Listing(
      IntOr(q.page, DefaultPage),
      IntOr(q.limit, DefaultLimit),
      SearchTerm(q.search),
      CategoryParam(q.categoryId),
      if q.sortBy == Some("price") then ByPrice else ByName,
      if q.sortOrder == Some("desc") then Desc else Asc)
  }

  /** A request without parameters lists the first 20 rows by name, ascending. */
  lemma NormalizeDefaults()
    ensures Normalize(ProductQuery(None, None, None, None, None, None))
         == Listing(DefaultPage, DefaultLimit, None, None, ByName, Asc)
  {
  }

  /** A page or limit written in decimal is read as that number, unless it is 0. */
  lemma NormalizeReadsDecimal(q: ProductQuery, page: nat, limit: nat)
    requires page != 0 && limit != 0
    requires q.page == Some(NatToString(page)) && q.limit == Some(NatToString(limit))
    ensures Normalize(q).page == page && Normalize(q).limit == limit
  {
    assert NatToString(page) + [] == NatToString(page);
    assert NatToString(limit) + [] == NatToString(limit);
    ParseIntOfDecimal(page, []);
    ParseIntOfDecimal(limit, []);
    assert ParseIntParam(q.page) == Some(page);
    assert ParseIntParam(q.limit) == Some(limit);
  }

  /** `(page - 1) * limit` */
  function Offset(n: Listing): int {
    (n.page - 1) * n.limit
  }

  /** The data query runs: `OFFSET` is not negative, `FETCH NEXT` is
      positive and every `sql.Int` parameter is in range. Otherwise the
      request fails and the handler answers 500. */
  predicate Executable(n: Listing) {
    && 0 <= Offset(n) && 1 <= n.limit
    && IsInt32(Offset(n)) && IsInt32(n.limit) && IsInt32Option(n.categoryId)
  }

  /** A page number below 1 never runs, nor does a limit below 1. */
  lemma ExecutableBounds(n: Listing)
    requires n.page != 0 && n.limit != 0
    ensures Executable(n) ==> n.page >= 1 && n.limit >= 1
  {
    if Executable(n) && n.page < 1 {
      assert n.page - 1 < 0 && n.limit >= 1;
      MulNegative(n.page - 1, n.limit);
    }
  }

  lemma MulNegative(a: int, b: int)
    requires a < 0 && b >= 1
    ensures a * b < 0
  {
  }

  // ---------------------------------------------------------------------
  // Selecting, joining, ordering
  // ---------------------------------------------------------------------

  /** The `WHERE` clause: the name contains the search under the collation
      (a NULL name never does), and the category is the requested one. */
  function Selected(names: Collation, n: Listing): Product -> bool {
    (p: Product) =>
      && (n.search.None? || (p.name.Some? && Like(names, p.name.value, n.search.value)))
      && (n.categoryId.None? || p.categoryId == n.categoryId)
  }

  /** The category `p.category_id = c.id` matches; ids are the primary key,
      so there is at most one. */
  function CategoryOf(p: Product, categories: seq<Category>): Option<Category> {
    match p.categoryId
    case None => None
    case Some(k) => Find(categories, HasId(k))
  }

  /** `FROM products p INNER JOIN categories c ON p.category_id = c.id`:
      every product that has a category, with that category's name, in scan
      order. */
  function Join(ps: seq<Product>, categories: seq<Category>): (r: seq<ProductRow>)
    ensures |r| <= |ps|
    ensures |r| == |ps| <==> forall p | p in ps :: CategoryOf(p, categories).Some?
    ensures forall x | x in r ::
      x.product in ps && CategoryOf(x.product, categories).Some?
      && x.categoryName == CategoryOf(x.product, categories).value.name
    ensures forall p | p in ps && CategoryOf(p, categories).Some? ::
      ProductRow(p, CategoryOf(p, categories).value.name) in r
  {
    if ps == [] then []
    else
      var rest := Join(ps[1..], categories);
      assert forall p | p in ps :: p == ps[0] || p in ps[1..];
      match CategoryOf(ps[0], categories)
      case None => rest
      case Some(c) => [ProductRow(ps[0], c.name)] + rest
  }

  /** The `WHERE` clause only reads product columns, so filtering the joined
      rows is joining the filtered products. */
  lemma {:induction false} JoinAfterFilter(ps: seq<Product>, categories: seq<Category>, sel: Product -> bool)
    ensures Filter(Join(ps, categories), (x: ProductRow) => sel(x.product))
         == Join(Filter(ps, sel), categories)
  {
    if ps != [] {
      JoinAfterFilter(ps[1..], categories, sel);
      var f := (x: ProductRow) => sel(x.product);
      var rest := Join(ps[1..], categories);
      match CategoryOf(ps[0], categories)
      case None =>
        if sel(ps[0]) {
          assert Filter(ps, sel) == [ps[0]] + Filter(ps[1..], sel);
          assert Filter(ps, sel)[1..] == Filter(ps[1..], sel);
        }
      case Some(c) =>
        var row := ProductRow(ps[0], c.name);
        assert ([row] + rest)[1..] == rest;
        if sel(ps[0]) {
          assert Filter(ps, sel) == [ps[0]] + Filter(ps[1..], sel);
          assert Filter(ps, sel)[1..] == Filter(ps[1..], sel);
        }
    }
  }

  /** The rows the data query orders and pages: the selected products with
      their category. */
  function Listed(products: seq<Product>, categories: seq<Category>, names: Collation, n: Listing): seq<ProductRow> {
    Join(Filter(products, Selected(names, n)), categories)
  }

  function RowName(x: ProductRow): Option<string> { x.product.name }

  function RowPrice(x: ProductRow): Option<real> { x.product.price }

  /** The primary sort key, `p.name COLLATE ...` or `p.price`; NULL sorts first. */
  function Primary(names: Collation, k: SortKey): (ProductRow, ProductRow) -> int {
    match k
    case ByName => On(CompareNullable(CompareUnder(names)), RowName)
    case ByPrice => On(CompareNullable(CompareReals), RowPrice)
  }

  function Directed<T>(cmp: (T, T) -> int, d: Direction): (T, T) -> int {
    if d == Desc then Reverse(cmp) else cmp
  }

  /** `p.created_at DESC` */
  function NewestFirst(a: ProductRow, b: ProductRow): bool {
    a.product.createdAt >= b.product.createdAt
  }

  /** `ORDER BY <primary> <direction>, p.created_at DESC` */
  function RowOrder(names: Collation, n: Listing): (ProductRow, ProductRow) -> bool {
    ThenBy(Directed(Primary(names, n.sortBy), n.direction), NewestFirst)
  }

  lemma PrimaryIsComparator(names: Collation, k: SortKey)
    ensures IsComparator(Primary(names, k))
  {
    match k
    case ByName =>
      CompareUnderIsComparator(names);
      NullableIsComparator(CompareUnder(names));
      OnIsComparator(CompareNullable(CompareUnder(names)), RowName);
    case ByPrice =>
      RealsIsComparator();
      NullableIsComparator(CompareReals);
      OnIsComparator(CompareNullable(CompareReals), RowPrice);
  }

  lemma DirectedIsComparator<T(!new)>(cmp: (T, T) -> int, d: Direction)
    requires IsComparator(cmp)
    ensures IsComparator(Directed(cmp, d))
  {
    if d == Desc {
      ReverseIsComparator(cmp);
    }
  }

  lemma NewestFirstIsTotalPreorder()
    ensures TotalPreorder(NewestFirst)
  {
  }

  /** The order of the listing is a total preorder, so sorting by it is defined. */
  lemma RowOrderIsTotalPreorder(names: Collation, n: Listing)
    ensures TotalPreorder(RowOrder(names, n))
  {
    PrimaryIsComparator(names, n.sortBy);
    DirectedIsComparator(Primary(names, n.sortBy), n.direction);
    NewestFirstIsTotalPreorder();
    ThenByIsTotalPreorder(Directed(Primary(names, n.sortBy), n.direction), NewestFirst);
  }

  /** The listed rows in the order of the query. Rows equal in both sort
      keys are kept in scan order. */
  function Ordered(products: seq<Product>, categories: seq<Category>, names: Collation, n: Listing): (o: seq<ProductRow>)
    ensures Sorted(o, RowOrder(names, n))
    ensures multiset(o) == multiset(Listed(products, categories, names, n))
  {
    RowOrderIsTotalPreorder(names, n);
    InsertionSort(Listed(products, categories, names, n), RowOrder(names, n))
  }

  /** `Math.ceil(total / limit)` */
  function CeilDiv(total: nat, limit: nat): (r: nat)
    requires limit >= 1
    ensures total <= r * limit < total + limit
  {
    var q := (total + limit - 1) / limit;
    assert q * limit + (total + limit - 1) % limit == total + limit - 1;
    q
  }

  // ---------------------------------------------------------------------
  // The listing
  // ---------------------------------------------------------------------

  /** The answer to a query that runs, for the normalised parameters `n`
      and the offset they give: the slice `[offset, offset + limit)` of the
      ordered, selected, joined rows, the number of selected products
      without the join, and that number over the limit, rounded up. */
  function PageOf(products: seq<Product>, categories: seq<Category>, names: Collation, n: Listing, offset: nat)
    : (p: ProductPage)
    requires n.limit >= 1
    ensures var listed := Listed(products, categories, names, n);
            var total := |Filter(products, Selected(names, n))|;
      && p.data == Slice(Ordered(products, categories, names, n), offset, n.limit)
      && Sorted(p.data, RowOrder(names, n))
      && (forall x | x in p.data :: x in listed)
      && |p.data| == (if offset >= |listed| then 0 else Min(n.limit, |listed| - offset))
      && p.pagination == Pagination(n.page, n.limit, total, CeilDiv(total, n.limit))
  {
    var o := Ordered(products, categories, names, n);
    var data := Slice(o, offset, n.limit);
    assert forall x | x in data :: x in o;
    assert forall x | x in o :: x in multiset(o);
    SliceSorted(o, offset, n.limit, RowOrder(names, n));
    var total := |Filter(products, Selected(names, n))|;
    ProductPage(data, Pagination(n.page, n.limit, total, CeilDiv(total, n.limit)))
  }

  /** `getProducts`: 500 when the normalised parameters cannot run, and
      otherwise the page above at offset `(page - 1) * limit`, with a page
      and a limit of at least 1. */
  function ListProducts(products: seq<Product>, categories: seq<Category>, names: Collation, q: ProductQuery)
    : (r: Result<ProductPage>)
    ensures r.Err? <==> !Executable(Normalize(q))
    ensures r.Err? ==> r.error == FetchFailed
    ensures r.Ok? ==>
      && Normalize(q).page >= 1 && Normalize(q).limit >= 1 && Offset(Normalize(q)) >= 0
      && r.value == PageOf(products, categories, names, Normalize(q), Offset(Normalize(q)))
  {
    var n := Normalize(q);
    if !Executable(n) then Err(FetchFailed)
    else
      ExecutableBounds(n);
      Ok(PageOf(products, categories, names, n, Offset(n)))
  }

  /** Multiplying by a non-negative number keeps the order. */
  lemma {:induction false} MulLe(a: int, b: int, c: nat)
    requires a <= b
    ensures a * c <= b * c
  {
    if c > 0 {
      MulLe(a, b, c - 1);
      assert a * c == a * (c - 1) + a;
      assert b * c == b * (c - 1) + b;
    }
  }

  /** The first row of page `page` is past the `total` rows when `page`
      exceeds the page count. */
  lemma PageStartsAfterEnd(page: int, pages: nat, limit: nat, total: nat, offset: int)
    requires page > pages && total <= pages * limit
    requires offset == (page - 1) * limit
    ensures offset >= total
  {
    MulLe(pages, page - 1, limit);
  }

  /** The first row of a page up to the page count is one of the `total` rows. */
  lemma PageStartsBeforeEnd(page: int, pages: nat, limit: nat, total: nat, offset: int)
    requires 1 <= page <= pages && pages * limit < total + limit
    requires offset == (page - 1) * limit
    ensures offset < total
  {
    MulLe(page, pages, limit);
    assert (page - 1) * limit + limit == page * limit;
  }

  lemma MulAtLeast(a: int, b: int)
    requires a >= 1 && b >= 0
    ensures a * b >= b
  {
    var c := a - 1;
    assert a * b == c * b + b;
  }

  /** An earlier page ends where or before a later one starts. */
  lemma PagesApart(first: int, second: int, limit: int)
    requires first < second && limit >= 1
    ensures (first - 1) * limit + limit <= (second - 1) * limit
  {
    MulAtLeast(second - first, limit);
    assert (second - 1) * limit - (first - 1) * limit == (second - first) * limit;
  }

  /** Past the page count, the page at offset `(page - 1) * limit` is empty. */
  lemma PageOfPastLast(products: seq<Product>, categories: seq<Category>, names: Collation, n: Listing, offset: nat)
    requires n.limit >= 1 && offset == Offset(n)
    requires n.page > PageOf(products, categories, names, n, offset).pagination.totalPages
    ensures PageOf(products, categories, names, n, offset).data == []
  {
    var p := PageOf(products, categories, names, n, offset);
    PageStartsAfterEnd(n.page, p.pagination.totalPages, n.limit, p.pagination.total, offset);
    ListedWithinTotal(products, categories, names, n);
  }

  /** The join keeps at most the selected products. */
  lemma ListedWithinTotal(products: seq<Product>, categories: seq<Category>, names: Collation, n: Listing)
    ensures |Listed(products, categories, names, n)| <= |Filter(products, Selected(names, n))|
  {
    assert Listed(products, categories, names, n) == Join(Filter(products, Selected(names, n)), categories);
  }

  /** A page past the last one is empty. */
  lemma PastLastPageIsEmpty(products: seq<Product>, categories: seq<Category>, names: Collation, q: ProductQuery)
    requires ListProducts(products, categories, names, q).Ok?
    requires Normalize(q).page > ListProducts(products, categories, names, q).value.pagination.totalPages
    ensures ListProducts(products, categories, names, q).value.data == []
  {
    var n := Normalize(q);
    var offset: nat := Offset(n);
    assert ListProducts(products, categories, names, q).value == PageOf(products, categories, names, n, offset);
    PageOfPastLast(products, categories, names, n, offset);
  }

  /** When every product has its category, the page at offset
      `(page - 1) * limit` counts exactly the listed rows and holds at least
      one row up to the page count. */
  lemma PageOfCovers(products: seq<Product>, categories: seq<Category>, names: Collation, n: Listing, offset: nat)
    requires forall p | p in products :: CategoryOf(p, categories).Some?
    requires n.limit >= 1 && offset == Offset(n)
    ensures var p := PageOf(products, categories, names, n, offset);
            && p.pagination.total == |Listed(products, categories, names, n)|
            && (1 <= n.page <= p.pagination.totalPages ==> |p.data| >= 1)
  {
    var p := PageOf(products, categories, names, n, offset);
    var selected := Filter(products, Selected(names, n));
    var listed := Listed(products, categories, names, n);
    assert listed == Join(selected, categories);
    assert |listed| == |selected|;
    var total, pages := p.pagination.total, p.pagination.totalPages;
    assert total == |listed|;
    if 1 <= n.page <= pages {
      assert pages * n.limit < total + n.limit;
      assert offset == (n.page - 1) * n.limit;
      PageStartsBeforeEnd(n.page, pages, n.limit, total, offset);
    }
  }

  /** When every product has its category the join loses no row: the total
      counts exactly the listed rows, and every page up to the last one holds
      at least one row. */
  lemma PagesCoverListing(products: seq<Product>, categories: seq<Category>, names: Collation, q: ProductQuery)
    requires forall p | p in products :: CategoryOf(p, categories).Some?
    requires ListProducts(products, categories, names, q).Ok?
    ensures var r := ListProducts(products, categories, names, q).value;
            && r.pagination.total == |Listed(products, categories, names, Normalize(q))|
            && (Normalize(q).page <= r.pagination.totalPages ==> |r.data| >= 1)
  {
    var n := Normalize(q);
    var offset: nat := Offset(n);
    assert ListProducts(products, categories, names, q).value == PageOf(products, categories, names, n, offset);
    PageOfCovers(products, categories, names, n, offset);
  }

  /** Two windows of the same listing, the first ending where or before the
      second starts: every row of the first comes before, or ties with,
      every row of the second. */
  lemma WindowsInOrder(products: seq<Product>, categories: seq<Category>, names: Collation, n: Listing,
                       later: int, first: nat, second: nat)
    requires n.limit >= 1 && first + n.limit <= second
    ensures var d1 := PageOf(products, categories, names, n, first).data;
            var d2 := PageOf(products, categories, names, n.(page := later), second).data;
            AllBefore(d1, d2, RowOrder(names, n))
  {
    var n2 := n.(page := later);
    var o := Ordered(products, categories, names, n);
    assert Listed(products, categories, names, n2) == Listed(products, categories, names, n);
    assert RowOrder(names, n2) == RowOrder(names, n);
    assert Ordered(products, categories, names, n2) == o;
    SlicesInOrder(o, first, second, n.limit, RowOrder(names, n));
  }

  /** Moving to a later page of the same listing moves the offset past the
      rows of the earlier page. */
  lemma OffsetsApart(n: Listing, later: int)
    requires n.limit >= 1 && n.page < later
    ensures Offset(n) + n.limit <= Offset(n.(page := later))
  {
    PagesApart(n.page, later, n.limit);
  }

  /** Two pages of the same listing: every row of the earlier page comes
      before, or ties with, every row of the later one. */
  lemma PagesInOrder(products: seq<Product>, categories: seq<Category>, names: Collation, q1: ProductQuery, q2: ProductQuery)
    requires ListProducts(products, categories, names, q1).Ok? && ListProducts(products, categories, names, q2).Ok?
    requires Normalize(q2) == Normalize(q1).(page := Normalize(q2).page)
    requires Normalize(q1).page < Normalize(q2).page
    ensures var n := Normalize(q1);
            var d1 := ListProducts(products, categories, names, q1).value.data;
            var d2 := ListProducts(products, categories, names, q2).value.data;
            AllBefore(d1, d2, RowOrder(names, n))
  {
    ListingPagesInOrder(products, categories, names, Normalize(q1), Normalize(q2));
  }

  /** Two pages of the same normalised listing, at their offsets. */
  lemma ListingPagesInOrder(products: seq<Product>, categories: seq<Category>, names: Collation, n1: Listing, n2: Listing)
    requires n1.limit >= 1 && 0 <= Offset(n1) && 0 <= Offset(n2)
    requires n2 == n1.(page := n2.page) && n1.page < n2.page
    ensures AllBefore(PageOf(products, categories, names, n1, Offset(n1)).data,
                      PageOf(products, categories, names, n2, Offset(n2)).data, RowOrder(names, n1))
  {
    OffsetsApart(n1, n2.page);
    WindowsInOrder(products, categories, names, n1, n2.page, Offset(n1), Offset(n2));
  }

  // ---------------------------------------------------------------------
  // The table
  // ---------------------------------------------------------------------

  /** `!name || !price || !category_id`: missing, empty, 0 and NaN are falsy. */
  predicate HasRequiredFields(b: ProductBody) {
    && b.name.Some? && b.name.value != ""
    && b.price.Some? && b.price.value != 0.0
    && b.categoryId.Some? && b.categoryId.value != 0
  }

  function ProductHasId(id: int): Product -> bool {
    (p: Product) => p.id == id
  }

  function NotProductId(id: int): Product -> bool {
    (p: Product) => p.id != id
  }

  /** The five columns both statements write: `description` and `image_url`
      go through `|| null`, the other fields as given, a missing one as NULL. */
  function WithBody(b: ProductBody): Product -> Product {
    (p: Product) => p.(name := b.name, description := OrNull(b.description), price := b.price,
                       imageUrl := OrNull(b.imageUrl), categoryId := b.categoryId)
  }

  predicate HasProduct(products: seq<Product>, id: int) {
    exists p | p in products :: p.id == id
  }

  class ProductTable {
    var products: seq<Product>
    var nextId: nat

    ghost predicate Valid()
      reads this
    {
      Ascending(products, ProductId) && Below(products, ProductId, nextId)
    }

    constructor ()
      ensures Valid() && products == []
    {
      products := [];
      nextId := 0;
    }

    /** `createProduct`: a falsy name, price or category is 400, a category
        id out of the `sql.Int` range is 500, both without changes; otherwise
        one row is appended with the body's fields. `now` is the database
        clock `created_at` defaults to. */
    method Create(b: ProductBody, now: int) returns (r: Result<()>)
      requires Valid()
      modifies this
      ensures Valid()
      ensures !HasRequiredFields(b) ==> r == Err(ProductFieldsRequired)
      ensures HasRequiredFields(b) && !IsInt32(b.categoryId.value) ==> r == Err(CreateFailed)
      ensures r.Ok? <==> HasRequiredFields(b) && IsInt32(b.categoryId.value)
      ensures r.Err? ==> products == old(products) && nextId == old(nextId)
      ensures r.Ok? ==>
        && products == old(products) + [WithBody(b)(Product(old(nextId), None, None, None, None, None, now))]
        && nextId == old(nextId) + 1
    {
      if !HasRequiredFields(b) {
        return Err(ProductFieldsRequired);
      }
      if !IsInt32(b.categoryId.value) {
        return Err(CreateFailed);
      }
      var p := WithBody(b)(Product(nextId, None, None, None, None, None, now));
      products := products + [p];
      nextId := nextId + 1;
      r := Ok(());
    }

    /** `updateProduct`: the errors come in the order invalid id (400), id
        out of the `sql.Int` range (500), missing row (404), category id out
        of range (500), each without changes. A success overwrites the five
        fields of row `id` and changes nothing else. */
    method Update(id: Option<int>, b: ProductBody) returns (r: Result<()>)
      requires Valid()
      modifies this
      ensures Valid()
      ensures nextId == old(nextId)
      ensures id.None? ==> r == Err(InvalidProductId)
      ensures id.Some? && !IsInt32(id.value) ==> r == Err(UpdateFailed)
      ensures id.Some? && IsInt32(id.value) && !HasProduct(old(products), id.value) ==> r == Err(ProductNotFound)
      ensures id.Some? && IsInt32(id.value) && HasProduct(old(products), id.value) && !IsInt32Option(b.categoryId) ==>
        r == Err(UpdateFailed)
      ensures r.Ok? <==>
        id.Some? && IsInt32(id.value) && HasProduct(old(products), id.value) && IsInt32Option(b.categoryId)
      ensures r.Err? ==> products == old(products)
      ensures r.Ok? ==> products == Replace(old(products), ProductHasId(id.value), WithBody(b))
      ensures r.Ok? ==> forall i | 0 <= i < |products| ::
        && products[i].id == old(products)[i].id && products[i].createdAt == old(products)[i].createdAt
        && (products[i].id != id.value ==> products[i] == old(products)[i])
    {
      if id.None? {
        return Err(InvalidProductId);
      }
      if !IsInt32(id.value) {
        return Err(UpdateFailed);
      }
      if !HasProduct(products, id.value) {
        return Err(ProductNotFound);
      }
      if !IsInt32Option(b.categoryId) {
        return Err(UpdateFailed);
      }
      var after := Replace(products, ProductHasId(id.value), WithBody(b));
      assert forall i | 0 <= i < |after| :: after[i].id == products[i].id;
      products := after;
      r := Ok(());
    }

    /** `deleteProduct`: invalid id is 400 and an id out of the `sql.Int`
        range is 500, both without changes; otherwise the rows with that id
        are deleted, and the answer is 404 exactly when there were none. */
    method Delete(id: Option<int>) returns (r: Result<()>)
      requires Valid()
      modifies this
      ensures Valid()
      ensures nextId == old(nextId)
      ensures id.None? ==> r == Err(InvalidProductId)
      ensures id.Some? && !IsInt32(id.value) ==> r == Err(DeleteFailed)
      ensures id.None? || !IsInt32(id.value) ==> products == old(products)
      ensures id.Some? && IsInt32(id.value) ==>
        && products == Filter(old(products), NotProductId(id.value))
        && (r == Err(ProductNotFound) <==> |products| == |old(products)|)
        && (r.Ok? <==> HasProduct(old(products), id.value))
        && (r.Ok? || r == Err(ProductNotFound))
    {
      if id.None? {
        return Err(InvalidProductId);
      }
      if !IsInt32(id.value) {
        return Err(DeleteFailed);
      }
      FilterAscending(products, NotProductId(id.value), ProductId);
      FilterBelow(products, NotProductId(id.value), ProductId, nextId);
      var before := products;
      products := Filter(products, NotProductId(id.value));
      if |products| == |before| {
        return Err(ProductNotFound);
      }
      r := Ok(());
    }
  }
}
