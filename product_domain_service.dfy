/** `ProductDomainService`: the rules that span several products. The repository those
    rules consult in the source is replaced by its answers, which callers pass in: the
    products found by a name search, whether a product exists, the lists of all and of
    active products. */
module ProductDomainService {
  import opened Wrappers
  import opened JavaStrings
  import opened ProductStatuses
  import opened ProductIds
  import opened Products

  const InactiveCreationMessage := "New products must be created as active"

  function DuplicateNameMessage(name: string): string {
    "Product name '" + name + "' already exists"
  }

  function MissingProductMessage(id: ProductId): string {
    "Product with ID " + id.value + " does not exist"
  }

  /** A candidate that makes a name taken: its name equals the trimmed name ignoring case,
      and it is not the product being updated. */
  predicate Clashes(p: Product, trimmed: string, excludeId: Option<ProductId>)
    reads p
  {
    EqualsIgnoreCase(p.name, trimmed) && (excludeId.None? || p.id != excludeId.value)
  }

  /** The stream's `filter(...).noneMatch(...)`, run over the candidates in order. */
  function NoneClashes(candidates: seq<Product>, trimmed: string, excludeId: Option<ProductId>): (r: bool)
    reads candidates
    ensures r <==> forall i :: 0 <= i < |candidates| ==> !Clashes(candidates[i], trimmed, excludeId)
  {
    if candidates == [] then true
    else !Clashes(candidates[0], trimmed, excludeId) && NoneClashes(candidates[1..], trimmed, excludeId)
  }

  /** `isProductNameUnique`: false for a null or blank name; otherwise true exactly when
      no candidate other than the excluded one has the trimmed name, ignoring case. */
  function IsProductNameUnique(name: Option<string>, candidates: seq<Product>, excludeId: Option<ProductId>)
    : (r: bool)
    reads candidates
    ensures name.None? || IsBlank(name.value) ==> !r
    ensures name.Some? && !IsBlank(name.value) && excludeId.None? ==>
      (r <==> forall i :: 0 <= i < |candidates| ==> !EqualsIgnoreCase(candidates[i].name, Trim(name.value)))
    ensures name.Some? && !IsBlank(name.value) && excludeId.Some? ==>
      (r <==> forall i :: 0 <= i < |candidates| ==>
                EqualsIgnoreCase(candidates[i].name, Trim(name.value)) ==> candidates[i].id == excludeId.value)
  {
    if name.None? || IsBlank(name.value) then false
    else NoneClashes(candidates, Trim(name.value), excludeId)
  }

  /** Candidates whose names do not match never change the answer: the answer over any
      list that holds every matching product (the result of a substring search, say) is
      the answer over the whole catalog. */
  lemma UniquenessIgnoresNonMatching(
    name: Option<string>, catalog: seq<Product>, found: seq<Product>, excludeId: Option<ProductId>)
    requires name.Some? && !IsBlank(name.value)
    requires forall p :: p in found ==> p in catalog
    requires forall p :: p in catalog && EqualsIgnoreCase(p.name, Trim(name.value)) ==> p in found
    ensures IsProductNameUnique(name, found, excludeId) == IsProductNameUnique(name, catalog, excludeId)
  {
    var t := Trim(name.value);
    if NoneClashes(catalog, t, excludeId) {
      forall i | 0 <= i < |found| ensures !Clashes(found[i], t, excludeId) {
        var p := found[i];
        assert p in catalog;
        var j :| 0 <= j < |catalog| && catalog[j] == p;
        assert !Clashes(catalog[j], t, excludeId);
      }
    }
    if NoneClashes(found, t, excludeId) {
      forall i | 0 <= i < |catalog| ensures !Clashes(catalog[i], t, excludeId) {
        var p := catalog[i];
        if EqualsIgnoreCase(p.name, t) {
          assert p in found;
          var j :| 0 <= j < |found| && found[j] == p;
          assert !Clashes(found[j], t, excludeId);
        }
      }
    }
  }

  /** `validateProductForCreation`: the name must be unique with nothing excluded, and the
      product must be ACTIVE, checked in that order. */
  function ValidateProductForCreation(product: Product, existing: seq<Product>): (r: Outcome)
    reads product, existing
    ensures r.Pass? <==> IsProductNameUnique(Some(product.name), existing, None) && product.status == ACTIVE
    ensures !IsProductNameUnique(Some(product.name), existing, None) ==>
      r == Fail(IllegalArgument(DuplicateNameMessage(product.name)))
    ensures IsProductNameUnique(Some(product.name), existing, None) && product.status != ACTIVE ==>
      r == Fail(IllegalArgument(InactiveCreationMessage))
  {
    if !IsProductNameUnique(Some(product.name), existing, None) then
      Fail(IllegalArgument(DuplicateNameMessage(product.name)))
    else if !product.IsActive() then Fail(IllegalArgument(InactiveCreationMessage))
    else Pass
  }

  /** A product whose name some existing product already has, ignoring case, cannot be
      created, whatever that product's id. */
  lemma DuplicateNameBlocksCreation(product: Product, existing: seq<Product>, i: nat)
    requires product.Valid() && i < |existing|
    requires EqualsIgnoreCase(existing[i].name, product.name)
    ensures ValidateProductForCreation(product, existing) == Fail(IllegalArgument(DuplicateNameMessage(product.name)))
  {
    TrimFixpoint(product.name);
    assert Trim(product.name) == product.name;
  }

  /** `validateProductForUpdate`: the product must exist (checked first), and its name
      must be unique once its own id is excluded. */
  function ValidateProductForUpdate(product: Product, existing: seq<Product>, productExists: bool): (r: Outcome)
    reads product, existing
    ensures !productExists ==> r == Fail(IllegalArgument(MissingProductMessage(product.id)))
    ensures productExists ==> (r.Pass? <==> IsProductNameUnique(Some(product.name), existing, Some(product.id)))
    ensures productExists && !IsProductNameUnique(Some(product.name), existing, Some(product.id)) ==>
      r == Fail(IllegalArgument(DuplicateNameMessage(product.name)))
  {
    if !productExists then Fail(IllegalArgument(MissingProductMessage(product.id)))
    else if !IsProductNameUnique(Some(product.name), existing, Some(product.id)) then
      Fail(IllegalArgument(DuplicateNameMessage(product.name)))
    else Pass
  }

  /** An existing product never clashes with its own stored copy: when the only products
      with its name carry its id, the update is valid. */
  lemma UpdateIgnoresOwnRecord(product: Product, existing: seq<Product>)
    requires product.Valid()
    requires forall p :: p in existing && EqualsIgnoreCase(p.name, product.name) ==> p.id == product.id
    ensures ValidateProductForUpdate(product, existing, true) == Pass
  {
    TrimFixpoint(product.name);
    var t := Trim(product.name);
    assert !IsBlank(product.name) by { assert t != []; }
    forall i | 0 <= i < |existing| && EqualsIgnoreCase(existing[i].name, t)
      ensures existing[i].id == product.id
    {
      assert existing[i] in existing;
    }
    assert IsProductNameUnique(Some(product.name), existing, Some(product.id));
  }

  /** `canDeleteProduct`: exactly the existence flag. */
  function CanDeleteProduct(productId: ProductId, productExists: bool): (r: bool)
    ensures r == productExists
  {
    productExists
  }

  /** `InventoryStatistics`: five counts, kept as the source computes them. */
  datatype InventoryStatistics = InventoryStatistics(
    totalProducts: int,
    activeProducts: int,
    inactiveProducts: int,
    productsInStock: int,
    productsOutOfStock: int)

  /** `mapToLong(p -> p.isInStock() ? 1 : 0).sum()`. */
  function CountInStock(products: seq<Product>): (n: nat)
    reads products
    ensures n <= |products|
    ensures n == 0 <==> forall i :: 0 <= i < |products| ==> products[i].stockQuantity <= 0
    ensures n == |products| <==> forall i :: 0 <= i < |products| ==> products[i].stockQuantity > 0
  {
    if products == [] then 0
    else (if products[0].IsInStock() then 1 else 0) + CountInStock(products[1..])
  }

  /** Counting distributes over concatenation of the lists. */
  lemma {:induction false} CountInStockAppend(a: seq<Product>, b: seq<Product>)
    ensures CountInStock(a + b) == CountInStock(a) + CountInStock(b)
  {
    if a == [] {
      assert a + b == b;
    } else {
      assert (a + b)[0] == a[0];
      assert (a + b)[1..] == a[1..] + b;
      CountInStockAppend(a[1..], b);
    }
  }

  /** `calculateInventoryStatistics`: `total` and `active` are the list sizes, `inactive`
      their difference, `inStock` the active products with stock, `outOfStock` the rest of
      the active ones. The code does not check that the active list is part of the whole,
      so `inactive` is non-negative exactly when it is no longer. */
  function CalculateInventoryStatistics(all: seq<Product>, active: seq<Product>): (r: InventoryStatistics)
    reads active
    ensures r.totalProducts == |all| && r.activeProducts == |active|
    ensures r.activeProducts + r.inactiveProducts == r.totalProducts
    ensures r.inactiveProducts >= 0 <==> |active| <= |all|
    ensures r.productsInStock + r.productsOutOfStock == r.activeProducts
    ensures 0 <= r.productsInStock <= r.activeProducts && r.productsOutOfStock >= 0
    ensures r.productsInStock == CountInStock(active)
  {
    var total := |all|;
    var activeCount := |active|;
    var inStock := CountInStock(active);
    InventoryStatistics(total, activeCount, total - activeCount, inStock, activeCount - inStock)
  }
}
