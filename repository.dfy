/** The repository's read logic (src/product.repository.ts): translating a
    filter input into a store predicate, the store's filtered, newest-first
    selection, and the skip/limit/last-page arithmetic with its range check. */
module ProductRepository {
  import opened Wrappers
  import opened ProductTypes
  import opened ProductErrors

  // ---------------------------------------------------------------------
  // Store predicates
  // ---------------------------------------------------------------------

  /** The record fields a query can constrain. */
  datatype Field = UuidKey | CategoryKey | NameKey | CustodianKey | TypeKey | OnboardableKey

  /** A field value as the store compares it; `Null` is a missing custodian. */
  datatype Value =
    | Str(s: string)
    | Cat(c: ProductCategory)
    | Typ(t: ProductType)
    | Cust(cu: Custodian)
    | Bool(b: bool)
    | Null

  /** A condition on one field: equality, or membership (`$in`). */
  datatype Cond = Exact(v: Value) | In(vs: seq<Value>)

  /** A store predicate: the conjunction of one condition per key. */
  type Query = map<Field, Cond>

  /** The value a record holds in a field. */
  function FieldValue(p: Product, k: Field): Value {
    match k
    case UuidKey => Str(p.uuid)
    case CategoryKey => Cat(p.category)
    case NameKey => Str(p.name)
    case CustodianKey => if p.custodian.Some? then Cust(p.custodian.value) else Null
    case TypeKey => Typ(p.productType)
    case OnboardableKey => Bool(p.onboardable)
  }

  predicate Holds(v: Value, c: Cond) {
    match c
    case Exact(w) => v == w
    case In(ws) => v in ws
  }

  /** The record satisfies the condition the query puts on `k`, if any. */
  predicate MatchesKey(p: Product, q: Query, k: Field) {
    k in q ==> Holds(FieldValue(p, k), q[k])
  }

  /** The record satisfies every condition of the query. */
  predicate Matches(p: Product, q: Query) {
    forall k :: MatchesKey(p, q, k)
  }

  /** `Matches` spelled out over the six keys. */
  lemma MatchesByKey(p: Product, q: Query)
    ensures Matches(p, q) <==>
      && MatchesKey(p, q, UuidKey) && MatchesKey(p, q, CategoryKey)
      && MatchesKey(p, q, NameKey) && MatchesKey(p, q, CustodianKey)
      && MatchesKey(p, q, TypeKey) && MatchesKey(p, q, OnboardableKey)
  {
    if && MatchesKey(p, q, UuidKey) && MatchesKey(p, q, CategoryKey)
       && MatchesKey(p, q, NameKey) && MatchesKey(p, q, CustodianKey)
       && MatchesKey(p, q, TypeKey) && MatchesKey(p, q, OnboardableKey)
    {
      forall k ensures MatchesKey(p, q, k) {
        match k
        case UuidKey =>
        case CategoryKey =>
        case NameKey =>
        case CustodianKey =>
        case TypeKey =>
        case OnboardableKey =>
      }
    }
  }

  /** The empty predicate matches every record. */
  lemma EmptyQueryMatchesAll(p: Product)
    ensures Matches(p, map[])
  {
  }

  // ---------------------------------------------------------------------
  // Filter translation (`filtersToQuery`)
  // ---------------------------------------------------------------------

  /** JavaScript truthiness of an optional string: set and non-empty. */
  predicate TruthyString(o: Option<string>) {
    o.Some? && o.value != ""
  }

  /** JavaScript truthiness of an optional array or enumeration member: set.
      Arrays, even empty ones, are truthy, and every member of the
      enumerations is a non-empty string. */
  predicate Present<T>(o: Option<T>) {
    o.Some?
  }

  /** JavaScript truthiness of an optional boolean: set to `true`. */
  predicate TruthyBool(o: Option<bool>) {
    o == Some(true)
  }

  /** The uuids of a filter as store values, in order. */
  function UuidValues(xs: seq<string>): (r: seq<Value>)
    ensures |r| == |xs|
    ensures forall i :: 0 <= i < |xs| ==> r[i] == Str(xs[i])
  {
    if xs == [] then [] else [Str(xs[0])] + UuidValues(xs[1..])
  }

  /** The categories of a filter as store values, in order. */
  function CategoryValues(xs: seq<ProductCategory>): (r: seq<Value>)
    ensures |r| == |xs|
    ensures forall i :: 0 <= i < |xs| ==> r[i] == Cat(xs[i])
  {
    if xs == [] then [] else [Cat(xs[0])] + CategoryValues(xs[1..])
  }

  lemma InUuidValues(u: string, xs: seq<string>)
    ensures Str(u) in UuidValues(xs) <==> u in xs
  {
    if u in xs {
      var i :| 0 <= i < |xs| && xs[i] == u;
      assert UuidValues(xs)[i] == Str(u);
    }
  }

  lemma InCategoryValues(c: ProductCategory, xs: seq<ProductCategory>)
    ensures Cat(c) in CategoryValues(xs) <==> c in xs
  {
    if c in xs {
      var i :| 0 <= i < |xs| && xs[i] == c;
      assert CategoryValues(xs)[i] == Cat(c);
    }
  }

  /** One conditional spread `...(cond ? { k: c } : {})` onto the object
      built so far: the key is set, replacing any earlier entry, or the
      object is left as it is. */
  function Spread(m: Query, cond: bool, k: Field, c: Cond): Query {
    if cond then m[k := c] else m
  }

  /** The filter fields that can set key `k`, truthy. */
  predicate KeyRequested(f: ProductFiltersInput, k: Field) {
    match k
    case UuidKey => TruthyString(f.uuid) || Present(f.uuids)
    case CategoryKey => Present(f.category) || Present(f.categories)
    case NameKey => TruthyString(f.name)
    case CustodianKey => Present(f.custodian)
    case TypeKey => Present(f.productType)
    case OnboardableKey => TruthyBool(f.onboardable)
  }

  /** The spreads of `filtersToQuery` in source order, up to and including
      the deprecated `uuid`, a later key replacing an earlier one. */
  function SpreadsThroughUuid(f: ProductFiltersInput): Query {
    var q1 := Spread(map[], Present(f.uuids), UuidKey,
      if f.uuids.Some? then In(UuidValues(f.uuids.value)) else In([]));
    var q2 := Spread(q1, Present(f.categories), CategoryKey,
      if f.categories.Some? then In(CategoryValues(f.categories.value)) else In([]));
    var q3 := Spread(q2, TruthyString(f.name), NameKey,
      if f.name.Some? then Exact(Str(f.name.value)) else Exact(Null));
    var q4 := Spread(q3, Present(f.custodian), CustodianKey,
      if f.custodian.Some? then Exact(Cust(f.custodian.value)) else Exact(Null));
    var q5 := Spread(q4, Present(f.productType), TypeKey,
      if f.productType.Some? then Exact(Typ(f.productType.value)) else Exact(Null));
    var q6 := Spread(q5, Present(f.category), CategoryKey,
      if f.category.Some? then Exact(Cat(f.category.value)) else Exact(Null));
    var q7 := Spread(q6, TruthyBool(f.onboardable), OnboardableKey,
      if f.onboardable.Some? then Exact(Bool(f.onboardable.value)) else Exact(Null));
    // deprecated
    Spread(q7, TruthyString(f.uuid), UuidKey,
      if f.uuid.Some? then Exact(Str(f.uuid.value)) else Exact(Null))
  }

  /** `filtersToQuery`: all the spreads, ending with the second spread of the
      deprecated `category`. The query holds a key exactly when one of the
      filter fields that set it is truthy: `onboardable: false`, `name: ""`,
      `uuid: ""` and a null custodian add nothing, while an empty `uuids` or
      `categories` list does. */
  function FiltersToQuery(f: ProductFiltersInput): (q: Query)
    ensures forall k :: k in q <==> KeyRequested(f, k)
  {
    Spread(SpreadsThroughUuid(f), Present(f.category), CategoryKey,
      if f.category.Some? then Exact(Cat(f.category.value)) else Exact(Null))
  }

  /** The second `category` spread never changes the query: the object built
      by the earlier spreads already holds that entry. */
  lemma DuplicateCategorySpreadIsNoOp(f: ProductFiltersInput)
    ensures FiltersToQuery(f) == SpreadsThroughUuid(f)
  {
    var m := SpreadsThroughUuid(f);
    if Present(f.category) {
      assert m[CategoryKey] == Exact(Cat(f.category.value));
      assert m[CategoryKey := Exact(Cat(f.category.value))] == m;
    }
  }

  /** The conditions of the query: a truthy singular `uuid` or `category` is
      an equality that replaces the membership test of its plural field, the
      other keys are equalities on the filter's value, and an `onboardable`
      condition can only ask for `true`. */
  lemma FiltersToQueryConditions(f: ProductFiltersInput)
    ensures TruthyString(f.uuid) ==> FiltersToQuery(f)[UuidKey] == Exact(Str(f.uuid.value))
    ensures !TruthyString(f.uuid) && Present(f.uuids) ==>
      FiltersToQuery(f)[UuidKey] == In(UuidValues(f.uuids.value))
    ensures Present(f.category) ==> FiltersToQuery(f)[CategoryKey] == Exact(Cat(f.category.value))
    ensures !Present(f.category) && Present(f.categories) ==>
      FiltersToQuery(f)[CategoryKey] == In(CategoryValues(f.categories.value))
    ensures TruthyString(f.name) ==> FiltersToQuery(f)[NameKey] == Exact(Str(f.name.value))
    ensures Present(f.custodian) ==> FiltersToQuery(f)[CustodianKey] == Exact(Cust(f.custodian.value))
    ensures Present(f.productType) ==> FiltersToQuery(f)[TypeKey] == Exact(Typ(f.productType.value))
    ensures TruthyBool(f.onboardable) ==> FiltersToQuery(f)[OnboardableKey] == Exact(Bool(true))
  {
  }

  /** What a filter admits, field by field, independently of the query
      encoding: a truthy singular field is an equality that overrides its
      plural field's membership test, and a falsy field constrains nothing. */
  predicate Admits(f: ProductFiltersInput, p: Product) {
    && (if TruthyString(f.uuid) then p.uuid == f.uuid.value
        else Present(f.uuids) ==> p.uuid in f.uuids.value)
    && (if Present(f.category) then p.category == f.category.value
        else Present(f.categories) ==> p.category in f.categories.value)
    && (TruthyString(f.name) ==> p.name == f.name.value)
    && (Present(f.custodian) ==> p.custodian == f.custodian)
    && (Present(f.productType) ==> p.productType == f.productType.value)
    && (TruthyBool(f.onboardable) ==> p.onboardable)
  }

  /** The translated query matches exactly the records the filter admits. */
  lemma {:induction false} FiltersToQueryMeaning(f: ProductFiltersInput, p: Product)
    ensures Matches(p, FiltersToQuery(f)) <==> Admits(f, p)
  {
    var q := FiltersToQuery(f);
    FiltersToQueryConditions(f);
    MatchesByKey(p, q);
    if f.uuids.Some? { InUuidValues(p.uuid, f.uuids.value); }
    if f.categories.Some? { InCategoryValues(p.category, f.categories.value); }
    assert MatchesKey(p, q, CustodianKey) <==> (Present(f.custodian) ==> p.custodian == f.custodian);
  }

  /** With no truthy filter field the query is empty and admits everything;
      an explicit `onboardable: false`, `name: ""` or `uuid: ""` is such a
      falsy field. */
  lemma FalsyFiltersGiveEmptyQuery(f: ProductFiltersInput)
    requires !TruthyString(f.uuid) && !Present(f.uuids) && !TruthyString(f.name)
    requires !Present(f.custodian) && !Present(f.productType)
    requires !Present(f.category) && !Present(f.categories) && !TruthyBool(f.onboardable)
    ensures FiltersToQuery(f) == map[]
    ensures forall p :: Matches(p, FiltersToQuery(f))
  {
    var q := FiltersToQuery(f);
    forall k ensures k !in q {
      match k
      case UuidKey =>
      case CategoryKey =>
      case NameKey =>
      case CustodianKey =>
      case TypeKey =>
      case OnboardableKey =>
    }
    assert q.Keys == {};
  }

  /** With only `uuids` set the query is exactly `{uuid: {$in: uuids}}`, and a
      record matches exactly when its uuid is listed; an empty list matches
      nothing. */
  lemma {:induction false} OnlyUuids(xs: seq<string>, p: Product)
    ensures FiltersToQuery(NoFilters.(uuids := Some(xs))) == map[UuidKey := In(UuidValues(xs))]
    ensures Matches(p, FiltersToQuery(NoFilters.(uuids := Some(xs)))) <==> p.uuid in xs
    ensures xs == [] ==> !Matches(p, FiltersToQuery(NoFilters.(uuids := Some(xs))))
  {
    var f := NoFilters.(uuids := Some(xs));
    var q := FiltersToQuery(f);
    FiltersToQueryConditions(f);
    assert q.Keys == {UuidKey} by {
      forall k | k in q ensures k == UuidKey {
        match k
        case UuidKey =>
        case CategoryKey =>
        case NameKey =>
        case CustodianKey =>
        case TypeKey =>
        case OnboardableKey =>
      }
    }
    FiltersToQueryMeaning(f, p);
  }

  // ---------------------------------------------------------------------
  // The store: a filtered, newest-first selection
  // ---------------------------------------------------------------------

  /** The records in store order, newest first (the `createdAt: -1` sort). */
  ghost predicate NewestFirst(s: seq<Product>) {
    forall i, j :: 0 <= i < j < |s| ==> s[i].createdAt >= s[j].createdAt
  }

  /** The records of the store that match the query, in store order: what
      `find` returns before skip and limit, and what `countDocuments` counts. */
  function Select(s: seq<Product>, q: Query): (r: seq<Product>)
    ensures |r| <= |s|
    ensures forall p :: p in r <==> p in s && Matches(p, q)
  {
    if s == [] then []
    else (if Matches(s[0], q) then [s[0]] else []) + Select(s[1..], q)
  }

  /** Each matching record occurs in the selection as often as in the store,
      and no other record occurs, so the count is the number of matching
      store positions. */
  lemma {:induction false} SelectMultiplicity(s: seq<Product>, q: Query, p: Product)
    ensures multiset(Select(s, q))[p] == if Matches(p, q) then multiset(s)[p] else 0
  {
    if s != [] {
      assert s == [s[0]] + s[1..];
      SelectMultiplicity(s[1..], q, p);
    }
  }

  /** Selection keeps store order: selecting from two consecutive parts of
      the store is selecting from each and concatenating the results. */
  lemma {:induction false} SelectAppend(a: seq<Product>, b: seq<Product>, q: Query)
    ensures Select(a + b, q) == Select(a, q) + Select(b, q)
  {
    if a == [] {
      assert a + b == b;
    } else {
      var head := if Matches(a[0], q) then [a[0]] else [];
      assert (a + b)[0] == a[0];
      assert (a + b)[1..] == a[1..] + b;
      SelectAppend(a[1..], b, q);
      calc {
        Select(a + b, q);
        head + Select(a[1..] + b, q);
        head + (Select(a[1..], q) + Select(b, q));
        (head + Select(a[1..], q)) + Select(b, q);
      }
    }
  }

  /** A single record is selected exactly when it matches. */
  lemma SelectSingleton(p: Product, q: Query)
    ensures Select([p], q) == if Matches(p, q) then [p] else []
  {
    assert [p][1..] == [];
  }

  /** Selection keeps the store's newest-first order. */
  lemma {:induction false} SelectNewestFirst(s: seq<Product>, q: Query)
    requires NewestFirst(s)
    ensures NewestFirst(Select(s, q))
  {
    if s != [] {
      var rest := Select(s[1..], q);
      assert NewestFirst(s[1..]);
      SelectNewestFirst(s[1..], q);
      forall p | p in rest ensures s[0].createdAt >= p.createdAt {
        var j :| 0 <= j < |s[1..]| && s[1..][j] == p;
        assert s[j + 1] == p;
      }
    }
  }

  /** The empty query selects the whole store. */
  lemma {:induction false} SelectAll(s: seq<Product>)
    ensures Select(s, map[]) == s
  {
    if s != [] {
      SelectAll(s[1..]);
    }
  }

  /** The store query of the single-product lookup, `{uuid: <uuid>}`, and the
      first record it returns, if any. */
  function FindByUuid(store: seq<Product>, uuid: string): (r: Option<Product>)
    ensures r.Some? <==> exists p :: p in store && p.uuid == uuid
    ensures r.Some? ==> r.value in store && r.value.uuid == uuid
  {
    var q := map[UuidKey := Exact(Str(uuid))];
    assert forall p :: Matches(p, q) <==> p.uuid == uuid by {
      forall p ensures Matches(p, q) <==> p.uuid == uuid {
        MatchesByKey(p, q);
      }
    }
    var found := Select(store, q);
    if found == [] then None else assert found[0] in found; Some(found[0])
  }

  // ---------------------------------------------------------------------
  // Pagination arithmetic
  // ---------------------------------------------------------------------

  /** `skip: (page - 1) * perPage`: the records on earlier pages. */
  function Skip(page: int, perPage: int): (r: nat)
    requires page >= 1 && perPage >= 1
    ensures r + perPage == page * perPage
  {
    (page - 1) * perPage
  }

  /** `Math.ceil(n / d)` for naturals: the least number of `d`-sized pages
      that hold `n` records. */
  function CeilDiv(n: nat, d: nat): (r: nat)
    requires d >= 1
    ensures n <= r * d
    ensures r == 0 || (r - 1) * d < n
  {
    var r := (n + d - 1) / d;
    assert n + d - 1 == r * d + (n + d - 1) % d;
    r
  }

  /** `Math.ceil(totalItems / perPage) || page`: the page count, or, when
      no record matches (a ceiling of 0 is falsy), the requested page. */
  function LastPage(totalItems: nat, page: int, perPage: int): (r: int)
    requires page >= 1 && perPage >= 1
    ensures r >= 1
    ensures totalItems == 0 ==> r == page
    ensures totalItems > 0 ==> (r - 1) * perPage < totalItems <= r * perPage
  {
    var c := CeilDiv(totalItems, perPage);
    if c != 0 then c else page
  }

  lemma MulLe(a: int, b: int, d: int)
    requires a <= b && d >= 0
    ensures a * d <= b * d
  {
  }

  lemma MulLtCancel(a: int, b: int, d: int)
    requires d >= 1 && a * d < b * d
    ensures a < b
  {
    if a >= b { MulLe(b, a, d); }
  }

  /** The out-of-range check fails exactly when some record matches and the
      page starts at or past the last of them; an empty selection never fails. */
  lemma {:induction false} OutOfRangeIff(totalItems: nat, page: int, perPage: int)
    requires page >= 1 && perPage >= 1
    ensures page > LastPage(totalItems, page, perPage) <==>
      totalItems > 0 && Skip(page, perPage) >= totalItems
  {
    var last := LastPage(totalItems, page, perPage);
    if totalItems > 0 {
      if page > last {
        MulLe(last, page - 1, perPage);
      }
      if Skip(page, perPage) >= totalItems {
        MulLtCancel(last - 1, page - 1, perPage);
      }
    }
  }

  /** A later page exists exactly when records remain after this one. */
  lemma {:induction false} NextPageIff(totalItems: nat, page: int, perPage: int)
    requires page >= 1 && perPage >= 1
    ensures LastPage(totalItems, page, perPage) > page <==> Skip(page, perPage) + perPage < totalItems
  {
    var last := LastPage(totalItems, page, perPage);
    if totalItems > 0 {
      if last > page {
        MulLe(page, last - 1, perPage);
      }
      if page * perPage < totalItems {
        MulLtCancel(page, last, perPage);
      }
    }
  }

  /** The records of one page: at most `limit` of them, starting at offset
      `skip` of `m`, fewer only when `m` runs out. */
  function PageItems(m: seq<Product>, skip: nat, limit: nat): (r: seq<Product>)
    ensures |r| == if skip >= |m| then 0 else if |m| - skip < limit then |m| - skip else limit
    ensures forall i :: 0 <= i < |r| ==> skip + i < |m| && r[i] == m[skip + i]
  {
    if skip >= |m| then []
    else if |m| - skip < limit then m[skip..]
    else m[skip..skip + limit]
  }

  /** A page of a newest-first selection is newest first. */
  lemma PageItemsNewestFirst(m: seq<Product>, skip: nat, limit: nat)
    requires NewestFirst(m)
    ensures NewestFirst(PageItems(m, skip, limit))
  {
    var r := PageItems(m, skip, limit);
    forall i, j | 0 <= i < j < |r| ensures r[i].createdAt >= r[j].createdAt {
      assert r[i] == m[skip + i] && r[j] == m[skip + j];
    }
  }

  // ---------------------------------------------------------------------
  // `getAllProducts`
  // ---------------------------------------------------------------------

  /** The records of the store the filter selects, in store order. */
  function MatchingProducts(store: seq<Product>, filters: ProductFiltersInput): seq<Product> {
    Select(store, FiltersToQuery(filters))
  }

  /** `getAllProducts`: the requested page of the matching records, or
      `PageDoesNotExist(page, lastPage)` when the page lies past the last.
      It fails exactly when some record matches and the page would start at
      or past the last of them; otherwise it returns the skip/limit slice of
      the matching records: `min(perPage, total - skip)` consecutive ones
      starting at offset `skip`. */
  function GetAllProducts(store: seq<Product>, page: int, perPage: int, filters: ProductFiltersInput)
    : (r: Result<seq<Product>, Error>)
    requires page >= 1 && perPage >= 1
    ensures var total := |MatchingProducts(store, filters)|;
      r.Failure? <==> total > 0 && Skip(page, perPage) >= total
    ensures r.Failure? ==>
      r.error == PageDoesNotExist(page, LastPage(|MatchingProducts(store, filters)|, page, perPage))
    ensures r.Success? ==>
      r.value == PageItems(MatchingProducts(store, filters), Skip(page, perPage), perPage)
    ensures r.Success? ==> |r.value| <= perPage
    ensures r.Success? ==> forall i :: 0 <= i < |r.value| ==>
      Skip(page, perPage) + i < |MatchingProducts(store, filters)|
      && r.value[i] == MatchingProducts(store, filters)[Skip(page, perPage) + i]
    ensures r.Success? ==> forall p :: p in r.value ==> p in store && Admits(filters, p)
  {
    var filterQuery := FiltersToQuery(filters);
    var paginatedProducts := PageItems(Select(store, filterQuery), Skip(page, perPage), perPage);
    var totalItems := |Select(store, filterQuery)|;
    var lastPage := LastPage(totalItems, page, perPage);
    OutOfRangeIff(totalItems, page, perPage);
    if page > lastPage then Failure(PageDoesNotExist(page, lastPage))
    else
      assert forall p :: p in paginatedProducts ==> p in store && Admits(filters, p) by {
        forall p | p in paginatedProducts ensures p in store && Admits(filters, p) {
          FiltersToQueryMeaning(filters, p);
        }
      }
      Success(paginatedProducts)
  }

  /** The page of a newest-first store is newest first. */
  lemma GetAllProductsNewestFirst(store: seq<Product>, page: int, perPage: int, filters: ProductFiltersInput)
    requires page >= 1 && perPage >= 1
    requires NewestFirst(store)
    ensures GetAllProducts(store, page, perPage, filters).Success? ==>
      NewestFirst(GetAllProducts(store, page, perPage, filters).value)
  {
    var m := MatchingProducts(store, filters);
    SelectNewestFirst(store, FiltersToQuery(filters));
    PageItemsNewestFirst(m, Skip(page, perPage), perPage);
  }
}
