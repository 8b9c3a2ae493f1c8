/** Product records, their closed enumerations, the filter input, the page
    shape and the resolution of a record to its concrete GraphQL variant
    (src/types.ts). */
module ProductTypes {
  import opened Wrappers

  /** `ProductType`: the discriminant carried by every record. */
  datatype ProductType =
    TypePee | TypePei | TypePercol | TypePerob | TypeIncentive | TypeParticipation

  /** `ProductCategory`: a coarser grouping than the type. */
  datatype ProductCategory = CategoryPee | CategoryPercol | CategoryPerob | CategoryBonus

  /** `ProductCustodian` without its `null` member; a record or a filter
      without a custodian holds `None`. */
  datatype Custodian = S2e | Sgss | Sogecap

  /** The five concrete object types that implement the `Product` interface. */
  datatype Variant = Pee | Percol | Perob | Incentive | Participation

  /** A stored product. `createdAt` is the store's creation timestamp: it is
      not part of the GraphQL type, but the list query sorts on it. The
      `regulations` and `currentRegulation` relations are not modelled. */
  datatype Product = Product(
    uuid: string,
    name: string,
    custodian: Option<Custodian>,
    productType: ProductType,
    category: ProductCategory,
    onboardable: bool,
    requiredSeniority: Option<int>,
    createdAt: int)

  /** `ProductFiltersInput`: every field is optional (and nullable). */
  datatype ProductFiltersInput = ProductFiltersInput(
    uuid: Option<string>,
    uuids: Option<seq<string>>,
    name: Option<string>,
    custodian: Option<Custodian>,
    productType: Option<ProductType>,
    category: Option<ProductCategory>,
    categories: Option<seq<ProductCategory>>,
    onboardable: Option<bool>)

  /** The filter object `{}`: no field set. */
  const NoFilters := ProductFiltersInput(None, None, None, None, None, None, None, None)

  /** `Page<T>`, instantiated for products as `ProductResponse`. */
  datatype Page<T> = Page(
    items: seq<T>,
    currentPage: int,
    lastPage: int,
    totalItems: nat,
    hasMore: bool,
    hasNextPage: bool)

  /** The `type` values each variant class admits. */
  function VariantTypes(v: Variant): set<ProductType> {
    match v
    case Pee => {TypePee, TypePei}
    case Percol => {TypePercol}
    case Perob => {TypePerob}
    case Incentive => {TypeIncentive}
    case Participation => {TypeParticipation}
  }

  /** The fixed `category` of each variant class. */
  function VariantCategory(v: Variant): ProductCategory {
    match v
    case Pee => CategoryPee
    case Percol => CategoryPercol
    case Perob => CategoryPerob
    case Incentive => CategoryBonus
    case Participation => CategoryBonus
  }

  /** The GraphQL object type name of each variant, the string the
      resolver hands to the framework. */
  function VariantName(v: Variant): string {
    match v
    case Pee => "Pee"
    case Percol => "Percol"
    case Perob => "Perob"
    case Incentive => "Incentive"
    case Participation => "Participation"
  }

  /** `productClassTypes`: the lookup table from a type to its variant.
      The table is total and agrees with the types each variant admits. */
  function ProductClassTypes(t: ProductType): (v: Variant)
    ensures t in VariantTypes(v)
  {
    match t
    case TypePee => Pee
    case TypePei => Pee
    case TypePercol => Percol
    case TypePerob => Perob
    case TypeIncentive => Incentive
    case TypeParticipation => Participation
  }

  /** A record is an instance of a variant when it has one of the variant's
      types and the variant's category. */
  predicate IsInstanceOf(p: Product, v: Variant) {
    p.productType in VariantTypes(v) && p.category == VariantCategory(v)
  }

  /** A record that is an instance of some variant. */
  ghost predicate WellFormed(p: Product) {
    exists v :: IsInstanceOf(p, v)
  }

  /** `resolveType`: the variant a record is served as, looked up by its type.
      No other variant can hold the record. */
  function ResolveType(p: Product): (v: Variant)
    ensures p.productType in VariantTypes(v)
    ensures forall w :: IsInstanceOf(p, w) ==> w == v
  {
    ProductClassTypes(p.productType)
  }

  /** `isProductCategoryPerob`: holds of exactly the category the `Perob`
      class fixes. */
  predicate IsProductCategoryPerob(c: ProductCategory): (r: bool)
    ensures r <==> c == VariantCategory(Perob)
  {
    c == CategoryPerob
  }

  /** The table maps a type to a variant exactly when that variant's class
      admits the type: the lookup and the class declarations agree. */
  lemma ProductClassTypesAgreesWithVariants(t: ProductType, v: Variant)
    ensures ProductClassTypes(t) == v <==> t in VariantTypes(v)
  {
  }

  /** The entries of the table: `pee` and `pei` share `Pee`, every other
      type has a variant of its own, and the names are distinct. */
  lemma ProductClassTypesTable()
    ensures ProductClassTypes(TypePee) == Pee && ProductClassTypes(TypePei) == Pee
    ensures ProductClassTypes(TypePercol) == Percol
    ensures ProductClassTypes(TypePerob) == Perob
    ensures ProductClassTypes(TypeIncentive) == Incentive
    ensures ProductClassTypes(TypeParticipation) == Participation
    ensures forall v, w :: VariantName(v) == VariantName(w) ==> v == w
  {
  }

  /** A well-formed record resolves to the variant it is an instance of, so
      the resolved variant's fixed category is the record's category. */
  lemma ResolvedCategoryMatches(p: Product)
    ensures WellFormed(p) <==> IsInstanceOf(p, ResolveType(p))
    ensures WellFormed(p) ==> VariantCategory(ResolveType(p)) == p.category
  {
  }

  /** The category is a function of the type: two well-formed records of
      the same type, or of types resolved to the same variant, share their
      category. */
  lemma CategoryDeterminedByType(p: Product, q: Product)
    requires WellFormed(p) && WellFormed(q)
    requires ResolveType(p) == ResolveType(q)
    ensures p.category == q.category
  {
    ResolvedCategoryMatches(p);
    ResolvedCategoryMatches(q);
  }

  /** Both `incentive` and `participation` records are `bonus`, yet they
      resolve to different variants. */
  lemma BonusTypesResolveApart(p: Product, q: Product)
    requires WellFormed(p) && p.productType == TypeIncentive
    requires WellFormed(q) && q.productType == TypeParticipation
    ensures p.category == CategoryBonus && q.category == CategoryBonus
    ensures ResolveType(p) == Incentive && ResolveType(q) == Participation
  {
    ResolvedCategoryMatches(p);
    ResolvedCategoryMatches(q);
  }

  /** A well-formed record has category `perob` exactly when it resolves to
      `Perob`, that is, exactly when its type is `perob`. */
  lemma PerobCategoryIffPerobVariant(p: Product)
    requires WellFormed(p)
    ensures IsProductCategoryPerob(p.category) <==> ResolveType(p) == Perob
    ensures IsProductCategoryPerob(p.category) <==> p.productType == TypePerob
  {
    ResolvedCategoryMatches(p);
  }
}
