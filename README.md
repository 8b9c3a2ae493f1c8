# Product catalogue read layer — a verified model

This project models the read logic of a small GraphQL API over a MongoDB
collection of financial products (savings and incentive plans). The model has
three parts.

- **Filter translation.** `filtersToQuery` turns a sparse `ProductFiltersInput`
  into a Mongo predicate. It is modelled as `map<Field, Cond>`, where a
  condition is an equality `Exact(v)` or a membership `In(vs)` (`$in`). The
  JavaScript object spread becomes a chain of map updates, so a later key
  replaces an earlier one: the deprecated singular `uuid` and `category`
  override the plural `uuids` and `categories`. Presence follows JavaScript
  truthiness:
  - an empty string, `null`/`undefined` and `onboardable: false` add nothing;
  - any array, even an empty one, adds its key.

  A `Matches` semantics for predicates, and an independent field-by-field
  reading of a filter (`Admits`), state what a filter selects.
- **Pagination.** The repository's `getAllProducts` and the controller's
  `products` compute `skip = (page - 1) * perPage`, `limit = perPage` and
  `lastPage = ceil(totalItems / perPage) || page`, and throw when
  `page > lastPage`. The controller also builds the `Page` metadata:
  - `hasMore = totalItems > perPage`, which compares the whole selection with
    one page;
  - `hasNextPage = lastPage > page`;
  - `currentPage`.

  The collection is a `seq<Product>` already in `createdAt`-descending order.
  The predicate selects a subsequence (`Select`): its length is the count, and
  a page is a slice of it. The ceiling is integer arithmetic.
- **Variant resolution.** The closed enumerations `ProductType`,
  `ProductCategory` and `ProductCustodian` become datatypes.
  `productClassTypes`/`resolveType` become a total function onto the five
  variants `Pee`, `Percol`, `Perob`, `Incentive` and `Participation`. The
  variant classes' fixed `type` and `category` fields become `VariantTypes`
  and `VariantCategory`. The lemmas show that the table and the class
  declarations agree. They also show that a well-formed record resolves to a
  variant that carries the record's category. A well-formed record is one
  whose category matches its type's class. `resolveType` reads only the
  type, so a stored record whose category contradicts its type would still
  be served as its type's variant.

The model's behaviour follows the code:
- the page error is `PageDoesNotExist(page, lastPage)`;
- a missing product is `ProductNotFoundByUuid(uuid)`;
- the truthiness check discards an explicit `onboardable: false`;
- `hasMore` compares the whole selection with one page, not with the records
  after the current one.

Files: `wrappers.dfy` (Option, Result), `errors.dfy`, `types.dfy`
(src/types.ts), `repository.dfy` (src/product.repository.ts), `controller.dfy`
(src/product.controller.ts).

## Model

| member | source | states |
|---|---|---|
| `ProductTypes.ProductClassTypes` | src/types.ts:66-73 | the table is total over the six types, and every type maps to a variant whose class admits that type |
| `ProductTypes.ProductClassTypesAgreesWithVariants` | src/types.ts:66-73 | a type maps to a variant exactly when that variant's class declares the type (both directions) |
| `ProductTypes.ProductClassTypesTable` | src/types.ts:66-73 | `pee` and `pei` map to `Pee`; `percol`, `perob`, `incentive` and `participation` map to their own variants; the variant names are distinct |
| `ProductTypes.ResolveType` | src/types.ts:76 | the resolved variant admits the record's type, and no other variant can hold the record |
| `ProductTypes.IsProductCategoryPerob` | src/types.ts:117-119 | holds of exactly the category the `Perob` class fixes, `perob` |
| `ProductTypes.ResolvedCategoryMatches` | src/types.ts:160-203 | a record is well formed exactly when it is an instance of its resolved variant, and then the variant's fixed category is the record's category |
| `ProductTypes.CategoryDeterminedByType` | src/types.ts:160-203 | two well-formed records resolved to the same variant have the same category, so resolution never merges categories |
| `ProductTypes.BonusTypesResolveApart` | src/types.ts:187-203 | well-formed `incentive` and `participation` records are both `bonus`, yet they resolve to `Incentive` and `Participation` respectively |
| `ProductTypes.PerobCategoryIffPerobVariant` | src/types.ts:117-119 | `isProductCategoryPerob` holds of a well-formed record's category exactly when the record resolves to `Perob`, and exactly when its type is `perob` |
| `ProductRepository.EmptyQueryMatchesAll` | src/product.repository.ts:49-60 | the empty predicate matches every record |
| `ProductRepository.FiltersToQuery` | src/product.repository.ts:49-60 | each key is in the query exactly when one of its filter fields is truthy: `onboardable: false`, `name: ""` and a null custodian add nothing, while an empty `uuids` list does add its key |
| `ProductRepository.FiltersToQueryConditions` | src/product.repository.ts:50-59 | a truthy `uuid` or `category` gives an equality that replaces the `$in` of `uuids` or `categories`; without it the plural field gives `$in`; the other keys are equalities on the filter value; `onboardable` can only ask for `true` |
| `ProductRepository.DuplicateCategorySpreadIsNoOp` | src/product.repository.ts:55-59 | for every filter, the query equals the query built without the second `category` spread: the duplicate spread has no effect |
| `ProductRepository.FiltersToQueryMeaning` | src/product.repository.ts:49-60 | a record matches the translated query exactly when the filter admits it field by field, with singular fields taking precedence over plural ones and falsy fields ignored |
| `ProductRepository.FalsyFiltersGiveEmptyQuery` | src/product.repository.ts:49-60 | with every filter field absent or falsy the query is the empty map and matches every record |
| `ProductRepository.OnlyUuids` | src/product.repository.ts:50 | with only `uuids` set the query is exactly `{uuid: $in uuids}`, a record matches exactly when its uuid is listed, and an empty list matches nothing |
| `ProductRepository.FindByUuid` | src/product.repository.ts:6 | the model's lookup for `getProduct`: it finds a record exactly when the store holds one with that uuid, and the record it returns is stored and carries that uuid |
| `ProductRepository.Select` | src/product.repository.ts:33-39 | the selection is no longer than the store, and a record occurs in it exactly when it is stored and matches the predicate |
| `ProductRepository.SelectMultiplicity` | src/product.repository.ts:37-39 | each matching record occurs in the selection as often as in the store, and no other record occurs, so the count is the number of matching store positions |
| `ProductRepository.SelectAppend` | src/product.repository.ts:33-35 | selecting from two consecutive parts of the store gives the first part's selection followed by the second's, so store order is kept |
| `ProductRepository.SelectNewestFirst` | src/product.repository.ts:26-35 | filtering keeps the store's `createdAt`-descending order |
| `ProductRepository.SelectAll` | src/product.repository.ts:33-39 | the empty predicate selects the whole store, in order |
| `ProductRepository.Skip` | src/product.repository.ts:29 | skip plus one page size equals page times page size, so skip counts exactly the records on earlier pages |
| `ProductRepository.CeilDiv` | src/product.repository.ts:40 | the result is the least number of pages of the given size that hold all records |
| `ProductRepository.LastPage` | src/product.repository.ts:40 | at least 1; equal to the requested page when nothing matches; otherwise the ceiling of total over page size |
| `ProductRepository.OutOfRangeIff` | src/product.repository.ts:40-44 | `page > lastPage` exactly when some record matches and skip is at or past the total, so an empty selection never fails |
| `ProductRepository.NextPageIff` | src/product.controller.ts:54 | `lastPage > page` exactly when records remain after this page (skip + perPage < total) |
| `ProductRepository.PageItems` | src/product.repository.ts:29-35 | the page holds `min(limit, total - skip)` records, none if skip is past the end, and record i is selection record skip + i |
| `ProductRepository.PageItemsNewestFirst` | src/product.repository.ts:28-35 | a page of a newest-first selection is newest first |
| `ProductRepository.GetAllProducts` | src/product.repository.ts:20-47 | fails with `(page, lastPage)` exactly when some record matches and the page starts past the last one; otherwise returns exactly the skip/limit slice of the matching records, min(perPage, total − skip) consecutive records from offset skip, each stored and admitted by the filter |
| `ProductRepository.GetAllProductsNewestFirst` | src/product.repository.ts:26-35 | the returned page of a newest-first store is newest first |
| `ProductController.ProductByUuid` | src/product.controller.ts:11-22 | returns the found record when the lookup yields one, and fails with `ProductNotFoundByUuid(uuid)` exactly when it yields nothing |
| `ProductController.ProductByUuidOverStore` | src/product.controller.ts:15-21 | through the store lookup, the query fails exactly when no stored record has the uuid, and otherwise returns a stored record with that uuid |
| `ProductController.Products` | src/product.controller.ts:25-57 | fails exactly as the range check says; on success: currentPage is page, totalItems is the match count, items is the skip/limit slice, lastPage is `ceil(totalItems / perPage) \|\| page`, hasMore is totalItems > perPage, page ≤ lastPage, hasNextPage iff page < lastPage iff records remain, a page with a next page is full, items are empty iff nothing matches |
| `ProductController.ProductsWithDefaults` | src/product.controller.ts:26-28 | each omitted argument independently takes its default: page 1, perPage 20, filters `{}`; a supplied argument is used as given |
| `ProductController.ProductsAgreesWithRepository` | src/product.controller.ts:30-47 | the controller and the repository fail on the same requests with the same error and otherwise serve the same records |
| `ProductController.HasMoreIgnoresPage` | src/product.controller.ts:52 | `hasMore` is the same on every page of a request |
| `ProductController.EmptySelectionNeverFails` | src/product.controller.ts:43-47 | with nothing selected, every page succeeds with no items, lastPage = page, and both flags false |
| `ProductController.TwentyFiveProducts` | src/product.controller.ts:38-56 | with 25 records and the defaults: page 1 holds the first 20 with lastPage 2 and both flags true; page 2 holds the last 5 with no next page; page 3 fails with (3, 2) |
| `ProductController.TenProductsSecondPage` | src/product.controller.ts:43-47 | with 10 records and 20 per page, page 2 fails with (2, 1) |

## Left out

- The NestJS/GraphQL decorators, field metadata and the Apollo module wiring
  (src/product.module.ts) are framework configuration with no logic.
- The MongoDB driver calls (`find`, `toArray`, `countDocuments`), the `_id`
  projection and the `createdAt` sort are foreign calls. The collection is a
  sequence already in `createdAt`-descending order. A record's `createdAt` is
  its stored timestamp. The count is the length of the selection.
- The `find` and `countDocuments` reads are not atomic with respect to each
  other. This is a concurrency matter and is not modelled: both see the same
  sequence.
- The repository's `getProduct` only throws "Method not implemented". Its
  interface declares only the signature `getProduct(productUuid): Promise<Product | null>`.
  The controller's lookup result is a parameter of `ProductByUuid`.
  `FindByUuid` runs a `{uuid: value}` query and returns the first record it
  finds. This lookup is the model's own choice, not behaviour the source
  describes.
- `ErrorPageDoesNotExist` and `productsCollection` are not defined in the
  source files. The controller calls `filtersToQuery` without a receiver, and
  the module registers `AppController`, not `ProductController`. The model
  reads these as the error constructor, the store, the repository's
  translation and the controller as written.
- `Regulation`, `ProductInput`, `requiredSeniority` and the record's
  regulation relations are carried or omitted as data. No read path
  interprets them.
- The UUID scalar's format validation lives in src/Uuid.scalar.ts, which is
  not part of this model. Uuids are plain strings.
- The filter fields `custodian`, `type`, `category` and `categories` are
  declared to GraphQL as `String`/`[String]`. At run time any string can
  reach `filtersToQuery`, including a falsy `""` that would add no key. The
  model limits them to the closed TypeScript enumerations. It does not
  capture strings outside those enumerations or the empty string in these
  fields.
- Records whose category contradicts their type are stored and served like
  any other. The category lemmas of `ProductTypes` hold only for well-formed
  records.
- The error messages are string templates. The errors carry only their
  arguments.
- `ProductRepository.GetAllProducts`, `ProductController.Products` and
  `ProductController.ProductsWithDefaults` require page and perPage to be at
  least 1. `Math.ceil` over a floating-point division is modelled only for
  whole numbers; perPage 0 (Infinity/NaN), non-positive or fractional pages,
  and an explicit `null` argument are not modelled.
- Mongo matching is modelled for scalar record fields only: equality and
  `$in` on a single value. Array-valued record fields do not occur in a
  product.
