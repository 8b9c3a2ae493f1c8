/** The two read queries of the resolver (src/product.controller.ts): the
    single-product lookup and the paginated, filtered product list with its
    page metadata. */
module ProductController {
  import opened Wrappers
  import opened ProductTypes
  import opened ProductErrors
  import opened ProductRepository

  /** The argument defaults of the `products` query. */
  const DefaultPage := 1
  const DefaultPerPage := 20

  /** `product(uuid)`: the record the repository's lookup returned, or
      `ProductNotFoundByUuid(uuid)` when the lookup came back empty. */
  function ProductByUuid(uuid: string, found: Option<Product>): (r: Result<Product, Error>)
    ensures r.Success? <==> found.Some?
    ensures r.Success? ==> r.value == found.value
    ensures r.Failure? ==> r.error == ProductNotFoundByUuid(uuid)
  {
    if found.None? then Failure(ProductNotFoundByUuid(uuid)) else Success(found.value)
  }

  /** Looked up through the store's `{uuid: <uuid>}` query, the product query
      fails exactly when no stored record carries the uuid, and otherwise
      returns a stored record that does. */
  lemma ProductByUuidOverStore(store: seq<Product>, uuid: string)
    ensures ProductByUuid(uuid, FindByUuid(store, uuid)).Failure? <==>
      forall p :: p in store ==> p.uuid != uuid
    ensures ProductByUuid(uuid, FindByUuid(store, uuid)).Failure? ==>
      ProductByUuid(uuid, FindByUuid(store, uuid)).error == ProductNotFoundByUuid(uuid)
    ensures ProductByUuid(uuid, FindByUuid(store, uuid)).Success? ==>
      var p := ProductByUuid(uuid, FindByUuid(store, uuid)).value;
      p in store && p.uuid == uuid
  {
  }

  /** `products(page, perPage, filters)`: one page of the matching records
      with its metadata, or `PageDoesNotExist(page, lastPage)`. */
  function Products(store: seq<Product>, page: int, perPage: int, filters: ProductFiltersInput)
    : (r: Result<Page<Product>, Error>)
    requires page >= 1 && perPage >= 1
    // the range check
    ensures var total := |MatchingProducts(store, filters)|;
      r.Failure? <==> total > 0 && Skip(page, perPage) >= total
    ensures r.Failure? ==>
      r.error == PageDoesNotExist(page, LastPage(|MatchingProducts(store, filters)|, page, perPage))
    // the page and its metadata
    ensures r.Success? ==> r.value.currentPage == page
    ensures r.Success? ==> r.value.totalItems == |MatchingProducts(store, filters)|
    ensures r.Success? ==>
      r.value.items == PageItems(MatchingProducts(store, filters), Skip(page, perPage), perPage)
    ensures r.Success? ==> (r.value.hasMore <==> r.value.totalItems > perPage)
    ensures r.Success? ==> r.value.lastPage == LastPage(r.value.totalItems, page, perPage)
    ensures r.Success? ==> page <= r.value.lastPage
    ensures r.Success? ==> (r.value.hasNextPage <==> page < r.value.lastPage)
    ensures r.Success? ==> (r.value.hasNextPage <==> Skip(page, perPage) + perPage < r.value.totalItems)
    ensures r.Success? && r.value.hasNextPage ==> |r.value.items| == perPage
    ensures r.Success? && !r.value.hasNextPage ==>
      |r.value.items| == r.value.totalItems - Skip(page, perPage) || r.value.totalItems == 0
    ensures r.Success? ==> (r.value.items == [] <==> r.value.totalItems == 0)
    ensures r.Success? && r.value.totalItems == 0 ==> r.value.lastPage == page
  {
    var filterQuery := FiltersToQuery(filters);
    var paginatedProducts := PageItems(Select(store, filterQuery), Skip(page, perPage), perPage);
    var totalItems := |Select(store, filterQuery)|;
    var lastPage := LastPage(totalItems, page, perPage);
    OutOfRangeIff(totalItems, page, perPage);
    NextPageIff(totalItems, page, perPage);
    if page > lastPage then Failure(PageDoesNotExist(page, lastPage))
    else
      Success(Page(
        paginatedProducts,
        page,
        lastPage,
        totalItems,
        totalItems > perPage,
        lastPage > page))
  }

  /** The `products` query as the API receives it: an argument left out
      takes its default (page 1, 20 per page, no filters). */
  function ProductsWithDefaults(
    store: seq<Product>, page: Option<int>, perPage: Option<int>, filters: Option<ProductFiltersInput>)
    : (r: Result<Page<Product>, Error>)
    requires page.GetOr(DefaultPage) >= 1 && perPage.GetOr(DefaultPerPage) >= 1
    ensures r == Products(store,
      if page.Some? then page.value else 1,
      if perPage.Some? then perPage.value else 20,
      if filters.Some? then filters.value else NoFilters)
  {
    Products(store, page.GetOr(DefaultPage), perPage.GetOr(DefaultPerPage), filters.GetOr(NoFilters))
  }

  /** The controller and the repository agree: they fail on the same
      requests with the same error, and otherwise serve the same records. */
  lemma ProductsAgreesWithRepository(store: seq<Product>, page: int, perPage: int, filters: ProductFiltersInput)
    requires page >= 1 && perPage >= 1
    ensures Products(store, page, perPage, filters).Failure? <==>
      GetAllProducts(store, page, perPage, filters).Failure?
    ensures Products(store, page, perPage, filters).Failure? ==>
      Products(store, page, perPage, filters).error == GetAllProducts(store, page, perPage, filters).error
    ensures Products(store, page, perPage, filters).Success? ==>
      Products(store, page, perPage, filters).value.items == GetAllProducts(store, page, perPage, filters).value
  {
  }

  /** `hasMore` compares the whole selection with one page: it is the same on
      every page of a request, whatever the page number. */
  lemma HasMoreIgnoresPage(store: seq<Product>, page1: int, page2: int, perPage: int, filters: ProductFiltersInput)
    requires page1 >= 1 && page2 >= 1 && perPage >= 1
    requires Products(store, page1, perPage, filters).Success?
    requires Products(store, page2, perPage, filters).Success?
    ensures Products(store, page1, perPage, filters).value.hasMore ==
      Products(store, page2, perPage, filters).value.hasMore
  {
  }

  /** With no record selected every page number succeeds, reporting itself as
      the last page with no items. */
  lemma EmptySelectionNeverFails(store: seq<Product>, page: int, perPage: int, filters: ProductFiltersInput)
    requires page >= 1 && perPage >= 1
    requires MatchingProducts(store, filters) == []
    ensures Products(store, page, perPage, filters) == Success(Page([], page, page, 0, false, false))
  {
  }

  /** Twenty-five records with the default page size: page 1 holds the 20
      newest and has a next page, page 2 the remaining 5 and is the last,
      page 3 does not exist. */
  lemma {:induction false} TwentyFiveProducts(store: seq<Product>)
    requires |store| == 25
    ensures ProductsWithDefaults(store, None, None, None) ==
      Success(Page(store[..20], 1, 2, 25, true, true))
    ensures ProductsWithDefaults(store, Some(2), None, None) ==
      Success(Page(store[20..], 2, 2, 25, true, false))
    ensures ProductsWithDefaults(store, Some(3), None, None) ==
      Failure(PageDoesNotExist(3, 2))
  {
    FalsyFiltersGiveEmptyQuery(NoFilters);
    SelectAll(store);
  }

  /** Ten records, twenty per page: page 2 does not exist and the error
      names page 2 and last page 1. */
  lemma {:induction false} TenProductsSecondPage(store: seq<Product>)
    requires |store| == 10
    ensures Products(store, 2, 20, NoFilters) == Failure(PageDoesNotExist(2, 1))
  {
    FalsyFiltersGiveEmptyQuery(NoFilters);
    SelectAll(store);
  }
}
