/** `ProductJpaEntity`: the flat persistence record of a product, with its conversions
    from and to the domain aggregate. Every column may hold `null`. */
module ProductJpaEntities {
  import opened Wrappers
  import opened JavaStrings
  import opened ProductStatuses
  import opened ProductIds
  import opened MoneyValues
  import opened Products

  const ProductNullMessage := "Product cannot be null"

  datatype ProductJpaEntity = ProductJpaEntity(
    id: Option<string>,
    name: Option<string>,
    description: Option<string>,
    price: Option<Decimal>,
    currency: Option<string>,
    stockQuantity: int,
    status: Option<ProductStatus>,
    createdAt: Option<int>,
    updatedAt: Option<int>)
  {
    /** `equals`: two records are the same entity when their ids are equal (two null ids
        included), whatever the other columns hold. */
    predicate Equals(other: ProductJpaEntity)
      ensures Equals(other) <==> id == other.id
    {
      id == other.id
    }
  }

  /** The field-by-field copy of a product's state that `fromDomain` and
      `ProductMapper.toJpaEntity` both build. */
  function EntityOf(s: ProductState): (e: ProductJpaEntity)
    ensures e.id == Some(s.id.value) && e.name == Some(s.name) && e.description == s.description
    ensures e.price == Some(s.price.Amount()) && e.currency == Some(s.price.currency)
    ensures e.stockQuantity == s.stockQuantity && e.status == Some(s.status)
    ensures e.createdAt == Some(s.createdAt) && e.updatedAt == Some(s.updatedAt)
  {
    ProductJpaEntity(Some(s.id.value), Some(s.name), s.description, Some(s.price.Amount()),
                     Some(s.price.currency), s.stockQuantity, Some(s.status),
                     Some(s.createdAt), Some(s.updatedAt))
  }

  /** The state `toDomain` and `ProductMapper.toDomainEntity` rebuild: `ProductId.of` on
      the id, `Money.of` on price and currency, then the loading constructor, whose checks
      and their order LoadedProductState states. It succeeds exactly when the record
      satisfies every domain rule. */
  function DomainStateOf(e: ProductJpaEntity): (r: Result<ProductState>)
    ensures r.Success? <==>
      e.id.Some? && !IsBlank(e.id.value) &&
      e.price.Some? && IsPositive(e.price.value) && e.currency.Some? && !IsBlank(e.currency.value) &&
      ValidateName(e.name).Success? && e.stockQuantity >= 0 && e.status.Some? && e.createdAt.Some?
    ensures e.id.None? || IsBlank(e.id.value) ==> r == Failure(IllegalArgument(IdBlankMessage))
    ensures ProductIds.Of(e.id).Success? && MoneyValues.Of(e.price, e.currency).Failure? ==>
      r == Failure(MoneyValues.Of(e.price, e.currency).error)
    ensures ProductIds.Of(e.id).Success? && MoneyValues.Of(e.price, e.currency).Success? ==>
      r == LoadedProductState(Some(ProductIds.Of(e.id).value), e.name, e.description,
                              Some(MoneyValues.Of(e.price, e.currency).value), e.stockQuantity,
                              e.status, e.createdAt, e.updatedAt)
    ensures r.Success? ==>
      r.value.Valid() &&
      r.value.id.value == Trim(e.id.value) && r.value.name == Trim(e.name.value) &&
      r.value.description == e.description &&
      r.value.price.cents == RoundHalfUpToCents(e.price.value) &&
      r.value.price.currency == NormalizeCode(e.currency.value) &&
      r.value.stockQuantity == e.stockQuantity && r.value.status == e.status.value &&
      r.value.createdAt == e.createdAt.value &&
      r.value.updatedAt == (if e.updatedAt.Some? then e.updatedAt.value else e.createdAt.value)
  {
    var id :- ProductIds.Of(e.id);
    var price :- MoneyValues.Of(e.price, e.currency);
    LoadedProductState(Some(id), e.name, e.description, Some(price), e.stockQuantity,
                       e.status, e.createdAt, e.updatedAt)
  }

  /** `ProductJpaEntity.fromDomain(product)`. */
  function FromDomain(product: Product?): (r: Result<ProductJpaEntity>)
    reads product
    ensures product == null ==> r == Failure(NullPointer(ProductNullMessage))
    ensures product != null ==> r == Success(EntityOf(product.State()))
  {
    if product == null then Failure(NullPointer(ProductNullMessage))
    else Success(EntityOf(product.State()))
  }

  /** `entity.toDomain()`: allocates the product that DomainStateOf describes, or fails as
      it does. */
  method ToDomain(e: ProductJpaEntity) returns (r: Result<Product>)
    ensures r.Success? <==> DomainStateOf(e).Success?
    ensures r.Failure? ==> r.error == DomainStateOf(e).error
    ensures r.Success? ==> fresh(r.value) && r.value.Valid() && r.value.State() == DomainStateOf(e).value
  {
    var id := ProductIds.Of(e.id);
    if id.Failure? {
      return Failure(id.error);
    }
    var price := MoneyValues.Of(e.price, e.currency);
    if price.Failure? {
      return Failure(price.error);
    }
    r := Product.Load(Some(id.value), e.name, e.description, Some(price.value), e.stockQuantity,
                      e.status, e.createdAt, e.updatedAt);
  }

  /** Domain to record to domain gives back the same state, provided the price is above
      zero; a zero price, which `Money.of` and `subtract` can both produce, cannot be read
      back. */
  lemma RoundTrip(s: ProductState)
    requires s.Valid()
    ensures DomainStateOf(EntityOf(s)) == Success(s) <==> s.price.cents > 0
    ensures s.price.cents == 0 ==> DomainStateOf(EntityOf(s)) == Failure(IllegalArgument(AmountMessage))
  {
    var e := EntityOf(s);
    ProductIds.OfValid(s.id);
    ValidNameAccepted(s.name);
    if s.price.cents > 0 {
      MoneyValues.OfValid(s.price);
      assert DomainStateOf(e) == LoadedProductState(Some(s.id), e.name, e.description, Some(s.price),
        e.stockQuantity, e.status, e.createdAt, e.updatedAt);
    } else {
      OfRefusesZero(s.price);
    }
  }

  /** Reading a record normalizes it once and for all: a state read from a record survives
      a further write and read unchanged, when its price is above zero. */
  lemma ReadNormalizes(e: ProductJpaEntity)
    requires DomainStateOf(e).Success? && DomainStateOf(e).value.price.cents > 0
    ensures DomainStateOf(EntityOf(DomainStateOf(e).value)) == DomainStateOf(e)
  {
    RoundTrip(DomainStateOf(e).value);
  }

  /** Records written from two states of one product are the same entity. */
  lemma EntitiesOfOneProductAreEqual(s: ProductState, t: ProductState)
    requires s.id == t.id
    ensures EntityOf(s).Equals(EntityOf(t))
  {
  }
}
