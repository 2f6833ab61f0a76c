/** `ProductMapper`: the infrastructure component that converts between the aggregate and
    its persistence record. It does what the record's own `fromDomain` and `toDomain` do. */
module ProductMapper {
  import opened Wrappers
  import opened ProductStatuses
  import opened Products
  import opened ProductJpaEntities

  const EntityNullMessage := "JPA entity cannot be null"

  /** `toJpaEntity(product)`: a null product is refused; otherwise each field is copied. */
  function ToJpaEntity(product: Product?): (r: Result<ProductJpaEntity>)
    reads product
    ensures product == null ==> r == Failure(NullPointer(ProductNullMessage))
    ensures product != null ==> r.Success? && r.value == EntityOf(product.State())
    ensures r == FromDomain(product)
  {
    if product == null then Failure(NullPointer(ProductNullMessage))
    else Success(EntityOf(product.State()))
  }

  /** `toDomainEntity(jpaEntity)`: a null record is refused; otherwise the product is
      rebuilt through the validating factories, with the same result or failure as
      `toDomain`. */
  method ToDomainEntity(jpaEntity: Option<ProductJpaEntity>) returns (r: Result<Product>)
    ensures jpaEntity.None? ==> r == Failure(NullPointer(EntityNullMessage))
    ensures jpaEntity.Some? ==>
      (r.Success? <==> DomainStateOf(jpaEntity.value).Success?) &&
      (r.Failure? ==> r.error == DomainStateOf(jpaEntity.value).error) &&
      (r.Success? ==> fresh(r.value) && r.value.Valid() && r.value.State() == DomainStateOf(jpaEntity.value).value)
  {
    if jpaEntity.None? {
      return Failure(NullPointer(EntityNullMessage));
    }
    r := ToDomain(jpaEntity.value);
  }

  /** The mapper's round trip on a live product: writing it and reading it back gives a
      new product with every field equal, the id included, when its price is above zero. */
  method RoundTripProduct(product: Product) returns (copy: Result<Product>)
    requires product.Valid()
    ensures copy.Success? <==> product.price.cents > 0
    ensures copy.Success? ==>
      fresh(copy.value) && copy.value.State() == product.State() && copy.value.Equals(product)
  {
    var e := ToJpaEntity(product);
    RoundTrip(product.State());
    copy := ToDomainEntity(Some(e.value));
  }

  /** Every status and every valid currency code survives the round trip. */
  lemma StatusAndCurrencyPreserved(s: ProductState, status: ProductStatus)
    requires s.Valid() && s.price.cents > 0
    ensures DomainStateOf(EntityOf(s.(status := status))).Success?
    ensures DomainStateOf(EntityOf(s.(status := status))).value.status == status
    ensures DomainStateOf(EntityOf(s)).value.price.currency == s.price.currency
  {
    RoundTrip(s);
    RoundTrip(s.(status := status));
  }
}
