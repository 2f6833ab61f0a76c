/** The aggregate root `Product`: a mutable entity whose name, description, price, stock,
    status and modification time change through its own methods. Every mutator either
    throws before changing anything or applies its change and stamps `updatedAt` with the
    clock value, which is a parameter (`now`) here.

    Each operation is first stated as a pure transition on `ProductState`, the record of
    all eight fields; the class methods are proved to perform exactly that transition. */
module Products {
  import opened Wrappers
  import opened JavaStrings
  import opened ProductStatuses
  import opened ProductIds
  import opened MoneyValues

  const MaxNameLength := 100

  const NameEmptyMessage := "Product name cannot be null or empty"
  const NameTooLongMessage := "Product name cannot exceed 100 characters"
  const NegativeStockMessage := "Stock quantity cannot be negative"
  const PriceNullMessage := "Price cannot be null"
  const IdNullMessage := "Product ID cannot be null"
  const StatusNullMessage := "Status cannot be null"
  const CreatedAtNullMessage := "Created at cannot be null"
  const AddQuantityMessage := "Stock quantity to add must be positive"
  const RemoveQuantityMessage := "Stock quantity to remove must be positive"
  const InsufficientStockMessage := "Insufficient stock available"

  /** A name as the aggregate stores it: trimmed, not empty, and at most 100 long as
      `String.length()` counts, in UTF-16 code units. */
  predicate IsValidName(name: string) {
    name != [] && Utf16Length(name) <= MaxNameLength && IsTrimmed(name)
  }

  /** `validateAndSetName`: a null or blank name, or one longer than 100 chars once
      trimmed, is refused; otherwise the trimmed name is kept. */
  function ValidateName(name: Option<string>): (r: Result<string>)
    ensures r.Success? <==> name.Some? && !IsBlank(name.value) && Utf16Length(Trim(name.value)) <= MaxNameLength
    ensures name.None? || IsBlank(name.value) ==> r == Failure(IllegalArgument(NameEmptyMessage))
    ensures name.Some? && !IsBlank(name.value) && Utf16Length(Trim(name.value)) > MaxNameLength ==>
      r == Failure(IllegalArgument(NameTooLongMessage))
    ensures r.Success? ==> r.value == Trim(name.value) && IsValidName(r.value)
  {
    if name.None? || IsBlank(name.value) then Failure(IllegalArgument(NameEmptyMessage))
    else if Utf16Length(Trim(name.value)) > MaxNameLength then Failure(IllegalArgument(NameTooLongMessage))
    else
      NonBlankTrim(name.value);
      Success(Trim(name.value))
  }

  /** A stored name passes validation unchanged. */
  lemma ValidNameAccepted(name: string)
    requires IsValidName(name)
    ensures ValidateName(Some(name)) == Success(name)
  {
    TrimFixpoint(name);
    var t := Trim(name);
    assert !IsBlank(name) by { assert t != []; }
    assert ValidateName(Some(name)) == Success(t);
  }

  /** Java measures a name in UTF-16 code units, so 51 emoji, each a surrogate pair, are
      too long a name although they are only 51 chars. */
  lemma SurrogatePairsCountTwice()
    ensures ValidateName(Some(seq(51, i => '\U{1F600}'))) == Failure(IllegalArgument(NameTooLongMessage))
  {
    var name := seq(51, i => '\U{1F600}');
    assert IsTrimmed(name) by { assert name[0] == '\U{1F600}' && name[50] == '\U{1F600}'; }
    TrimFixpoint(name);
    Utf16LengthBounds(name);
    var t := Trim(name);
    assert !IsBlank(name) by { assert t != []; }
    assert Utf16Length(t) == 102;
  }

  /** `validateAndSetStockQuantity`: a negative quantity is refused. */
  function ValidateStockQuantity(quantity: int): (r: Result<int>)
    ensures r.Success? <==> quantity >= 0
    ensures r.Failure? ==> r.error == IllegalArgument(NegativeStockMessage)
    ensures r.Success? ==> r.value == quantity
  {
    if quantity < 0 then Failure(IllegalArgument(NegativeStockMessage)) else Success(quantity)
  }

  /** The eight fields of a product; timestamps are clock readings. */
  datatype ProductState = ProductState(
    id: ProductId,
    name: string,
    description: Option<string>,
    price: Money,
    stockQuantity: int,
    status: ProductStatus,
    createdAt: int,
    updatedAt: int)
  {
    /** The invariant every constructor establishes and every operation keeps. */
    predicate Valid() {
      id.Valid() && IsValidName(name) && price.Valid() && stockQuantity >= 0
    }
  }

  /** The constructor for new products: a generated id, a validated name, a non-null price
      and a non-negative stock; status ACTIVE; `createdAt` and `updatedAt` are two separate
      clock readings. */
  function NewProductState(
    uuid: string, name: Option<string>, description: Option<string>, price: Option<Money>,
    stockQuantity: int, clock1: int, clock2: int): (r: Result<ProductState>)
    requires IsUuidText(uuid)
    ensures r.Success? <==> ValidateName(name).Success? && price.Some? && stockQuantity >= 0
    ensures ValidateName(name).Failure? ==> r == Failure(ValidateName(name).error)
    ensures ValidateName(name).Success? && price.None? ==> r == Failure(NullPointer(PriceNullMessage))
    ensures ValidateName(name).Success? && price.Some? && stockQuantity < 0 ==>
      r == Failure(IllegalArgument(NegativeStockMessage))
    ensures r.Success? ==>
      r.value.id == Generate(uuid) && r.value.name == Trim(name.value) &&
      r.value.description == description && r.value.price == price.value &&
      r.value.stockQuantity == stockQuantity && r.value.status == ACTIVE &&
      r.value.createdAt == clock1 && r.value.updatedAt == clock2
    ensures r.Success? && price.value.Valid() ==> r.value.Valid()
  {
    var id := Generate(uuid);
    var validName :- ValidateName(name);
    if price.None? then Failure(NullPointer(PriceNullMessage))
    else
      var quantity :- ValidateStockQuantity(stockQuantity);
      Success(ProductState(id, validName, description, price.value, quantity, ACTIVE, clock1, clock2))
  }

  /** The constructor for products loaded from storage: id, price, status and creation
      time are required, the name and stock are validated as for new products, and a
      missing `updatedAt` defaults to `createdAt`. */
  function LoadedProductState(
    id: Option<ProductId>, name: Option<string>, description: Option<string>, price: Option<Money>,
    stockQuantity: int, status: Option<ProductStatus>, createdAt: Option<int>, updatedAt: Option<int>)
    : (r: Result<ProductState>)
    ensures r.Success? <==>
      id.Some? && ValidateName(name).Success? && price.Some? && stockQuantity >= 0 &&
      status.Some? && createdAt.Some?
    ensures id.None? ==> r == Failure(NullPointer(IdNullMessage))
    ensures id.Some? && ValidateName(name).Failure? ==> r == Failure(ValidateName(name).error)
    ensures id.Some? && ValidateName(name).Success? && price.None? ==> r == Failure(NullPointer(PriceNullMessage))
    ensures id.Some? && ValidateName(name).Success? && price.Some? && stockQuantity < 0 ==>
      r == Failure(IllegalArgument(NegativeStockMessage))
    ensures id.Some? && ValidateName(name).Success? && price.Some? && stockQuantity >= 0 && status.None? ==>
      r == Failure(NullPointer(StatusNullMessage))
    ensures (id.Some? && ValidateName(name).Success? && price.Some? && stockQuantity >= 0 &&
             status.Some? && createdAt.None?) ==> r == Failure(NullPointer(CreatedAtNullMessage))
    ensures r.Success? ==>
      r.value.id == id.value && r.value.name == Trim(name.value) &&
      r.value.description == description && r.value.price == price.value &&
      r.value.stockQuantity == stockQuantity && r.value.status == status.value &&
      r.value.createdAt == createdAt.value &&
      r.value.updatedAt == (if updatedAt.Some? then updatedAt.value else createdAt.value)
    ensures r.Success? && id.value.Valid() && price.value.Valid() ==> r.value.Valid()
  {
    if id.None? then Failure(NullPointer(IdNullMessage))
    else
      var validName :- ValidateName(name);
      if price.None? then Failure(NullPointer(PriceNullMessage))
      else
        var quantity :- ValidateStockQuantity(stockQuantity);
        if status.None? then Failure(NullPointer(StatusNullMessage))
        else if createdAt.None? then Failure(NullPointer(CreatedAtNullMessage))
        else
          var modified := if updatedAt.Some? then updatedAt.value else createdAt.value;
          Success(ProductState(id.value, validName, description, price.value, quantity,
                               status.value, createdAt.value, modified))
  }

  /** `updateName`. A refused name changes nothing, not even `updatedAt`. */
  function Renamed(s: ProductState, newName: Option<string>, now: int): (r: Result<ProductState>)
    ensures r.Success? <==> ValidateName(newName).Success?
    ensures r.Failure? ==> r.error == ValidateName(newName).error
    ensures r.Success? ==> r.value == s.(name := ValidateName(newName).value, updatedAt := now)
    ensures r.Success? && s.Valid() ==> r.value.Valid()
  {
    var validName :- ValidateName(newName);
    Success(s.(name := validName, updatedAt := now))
  }

  /** `updateDescription`: any description, null included, is accepted. */
  function Redescribed(s: ProductState, newDescription: Option<string>, now: int): (r: ProductState)
    ensures r.description == newDescription && r.updatedAt == now
    ensures r.(description := s.description, updatedAt := s.updatedAt) == s
    ensures s.Valid() ==> r.Valid()
  {
    s.(description := newDescription, updatedAt := now)
  }

  /** `updatePrice`: only a null price is refused. */
  function Repriced(s: ProductState, newPrice: Option<Money>, now: int): (r: Result<ProductState>)
    ensures r.Success? <==> newPrice.Some?
    ensures r.Failure? ==> r.error == NullPointer(PriceNullMessage)
    ensures r.Success? ==> r.value == s.(price := newPrice.value, updatedAt := now)
    ensures r.Success? && s.Valid() && newPrice.value.Valid() ==> r.value.Valid()
  {
    if newPrice.None? then Failure(NullPointer(PriceNullMessage))
    else Success(s.(price := newPrice.value, updatedAt := now))
  }

  /** `addStock`: a quantity that is not positive is an illegal argument; otherwise the
      stock grows by exactly that quantity (unbounded, see JavaIntAdd for the source's
      32-bit arithmetic). */
  function StockAdded(s: ProductState, quantity: int, now: int): (r: Result<ProductState>)
    ensures r.Success? <==> quantity > 0
    ensures r.Failure? ==> r.error == IllegalArgument(AddQuantityMessage)
    ensures r.Success? ==> r.value == s.(stockQuantity := s.stockQuantity + quantity, updatedAt := now)
    ensures r.Success? && s.Valid() ==> r.value.Valid() && r.value.stockQuantity > s.stockQuantity
  {
    if quantity <= 0 then Failure(IllegalArgument(AddQuantityMessage))
    else Success(s.(stockQuantity := s.stockQuantity + quantity, updatedAt := now))
  }

  /** `removeStock`: a quantity that is not positive is an illegal argument, one above the
      current stock an illegal state; otherwise the stock shrinks by that quantity and
      never below zero. */
  function StockRemoved(s: ProductState, quantity: int, now: int): (r: Result<ProductState>)
    ensures r.Success? <==> 0 < quantity <= s.stockQuantity
    ensures quantity <= 0 ==> r == Failure(IllegalArgument(RemoveQuantityMessage))
    ensures 0 < quantity && s.stockQuantity < quantity ==> r == Failure(IllegalState(InsufficientStockMessage))
    ensures r.Success? ==> r.value == s.(stockQuantity := s.stockQuantity - quantity, updatedAt := now)
    ensures r.Success? ==> r.value.stockQuantity >= 0
    ensures r.Success? && s.Valid() ==> r.value.Valid()
  {
    if quantity <= 0 then Failure(IllegalArgument(RemoveQuantityMessage))
    else if s.stockQuantity < quantity then Failure(IllegalState(InsufficientStockMessage))
    else Success(s.(stockQuantity := s.stockQuantity - quantity, updatedAt := now))
  }

  /** `activate`: from any status, DISCONTINUED included. */
  function Activated(s: ProductState, now: int): (r: ProductState)
    ensures r.status == ACTIVE && r.updatedAt == now
    ensures r.(status := s.status, updatedAt := s.updatedAt) == s
    ensures s.Valid() ==> r.Valid()
  {
    s.(status := ACTIVE, updatedAt := now)
  }

  /** `deactivate`: from any status, DISCONTINUED included. */
  function Deactivated(s: ProductState, now: int): (r: ProductState)
    ensures r.status == INACTIVE && r.updatedAt == now
    ensures r.(status := s.status, updatedAt := s.updatedAt) == s
    ensures s.Valid() ==> r.Valid()
  {
    s.(status := INACTIVE, updatedAt := now)
  }

  /** A new product is ACTIVE, stores the trimmed name and the given stock, is available
      exactly when that stock is positive, and has `createdAt == updatedAt` only when the
      two clock readings agree. */
  lemma NewProductFacts(
    uuid: string, name: Option<string>, description: Option<string>, price: Option<Money>,
    stockQuantity: int, clock1: int, clock2: int)
    requires IsUuidText(uuid)
    requires NewProductState(uuid, name, description, price, stockQuantity, clock1, clock2).Success?
    ensures var s := NewProductState(uuid, name, description, price, stockQuantity, clock1, clock2).value;
      s.status == ACTIVE && s.name == Trim(name.value) && s.name != [] && Utf16Length(s.name) <= MaxNameLength &&
      s.stockQuantity == stockQuantity >= 0 &&
      ((s.status == ACTIVE && s.stockQuantity > 0) <==> stockQuantity > 0) &&
      (s.createdAt == s.updatedAt <==> clock1 == clock2)
  {
  }

  /** Removing after adding changes the stock by the difference and keeps it non-negative;
      a removal the stock cannot cover fails with an illegal state and changes nothing. */
  lemma AddThenRemove(s: ProductState, a: int, b: int, t1: int, t2: int)
    requires s.Valid() && a > 0 && b > 0
    ensures var added := StockAdded(s, a, t1).value;
      (StockRemoved(added, b, t2).Success? <==> b <= s.stockQuantity + a) &&
      (b <= s.stockQuantity + a ==>
        StockRemoved(added, b, t2).value.stockQuantity == s.stockQuantity + a - b >= 0) &&
      (b > s.stockQuantity + a ==>
        StockRemoved(added, b, t2) == Failure(IllegalState(InsufficientStockMessage)))
  {
  }

  /** Activation and deactivation are idempotent: only the latest call's clock reading
      remains, and any other field is as before the first call. */
  lemma StatusTransitionsIdempotent(s: ProductState, t1: int, t2: int)
    ensures Activated(Activated(s, t1), t2) == Activated(s, t2)
    ensures Deactivated(Deactivated(s, t1), t2) == Deactivated(s, t2)
    ensures Activated(Deactivated(s, t1), t2) == Activated(s, t2)
    ensures Deactivated(Activated(s, t1), t2) == Deactivated(s, t2)
  {
  }

  /** activate, deactivate, activate: the product ends ACTIVE with its stock, name and
      price as before, stamped with the last clock reading. */
  lemma ToggleScenario(s: ProductState, t1: int, t2: int, t3: int)
    ensures var r := Activated(Deactivated(Activated(s, t1), t2), t3);
      r.status == ACTIVE && r.stockQuantity == s.stockQuantity && r.name == s.name &&
      r.price == s.price && r.updatedAt == t3 && r.createdAt == s.createdAt && r.id == s.id
  {
  }

  /** The outcome that a method returns for a transition, and the state it leaves: the new
      state on success, the old state and the transition's error on failure. */
  predicate Settles(o: Outcome, before: ProductState, after: ProductState, t: Result<ProductState>) {
    match t
    case Success(v) => o == Pass && after == v
    case Failure(e) => o == Fail(e) && after == before
  }

  class Product {
    const id: ProductId
    var name: string
    var description: Option<string>
    var price: Money
    var stockQuantity: int
    var status: ProductStatus
    const createdAt: int
    var updatedAt: int

    /** All fields as one record. */
    function State(): ProductState
      reads this
    {
      ProductState(id, name, description, price, stockQuantity, status, createdAt, updatedAt)
    }

    predicate Valid()
      reads this
    {
      State().Valid()
    }

    /** Builds the object from fields that have already passed validation. */
    constructor (s: ProductState)
      requires s.Valid()
      ensures Valid() && State() == s
    {
      id, name, description, price := s.id, s.name, s.description, s.price;
      stockQuantity, status, createdAt, updatedAt := s.stockQuantity, s.status, s.createdAt, s.updatedAt;
    }

    /** `new Product(name, description, price, stockQuantity)`: fails as NewProductState
        does, without allocating; `uuid` is the random UUID behind `ProductId.generate()`
        and `clock1`, `clock2` the two clock readings. */
    static method New(
      uuid: string, name: Option<string>, description: Option<string>, price: Option<Money>,
      stockQuantity: int, clock1: int, clock2: int) returns (r: Result<Product>)
      requires IsUuidText(uuid)
      requires price.Some? ==> price.value.Valid()
      ensures var t := NewProductState(uuid, name, description, price, stockQuantity, clock1, clock2);
        (r.Success? <==> t.Success?) &&
        (r.Failure? ==> r.error == t.error) &&
        (r.Success? ==> fresh(r.value) && r.value.Valid() && r.value.State() == t.value)
    {
      var t := NewProductState(uuid, name, description, price, stockQuantity, clock1, clock2);
      if t.Failure? {
        return Failure(t.error);
      }
      var p := new Product(t.value);
      return Success(p);
    }

    /** The loading constructor `new Product(id, name, ..., createdAt, updatedAt)`. */
    static method Load(
      id: Option<ProductId>, name: Option<string>, description: Option<string>, price: Option<Money>,
      stockQuantity: int, status: Option<ProductStatus>, createdAt: Option<int>, updatedAt: Option<int>)
      returns (r: Result<Product>)
      requires id.Some? ==> id.value.Valid()
      requires price.Some? ==> price.value.Valid()
      ensures var t := LoadedProductState(id, name, description, price, stockQuantity, status, createdAt, updatedAt);
        (r.Success? <==> t.Success?) &&
        (r.Failure? ==> r.error == t.error) &&
        (r.Success? ==> fresh(r.value) && r.value.Valid() && r.value.State() == t.value)
    {
      var t := LoadedProductState(id, name, description, price, stockQuantity, status, createdAt, updatedAt);
      if t.Failure? {
        return Failure(t.error);
      }
      var p := new Product(t.value);
      return Success(p);
    }

    method UpdateName(newName: Option<string>, now: int) returns (o: Outcome)
      requires Valid()
      modifies this
      ensures Valid()
      ensures Settles(o, old(State()), State(), Renamed(old(State()), newName, now))
    {
      var validName := ValidateName(newName);
      ghost var before := State();
      ghost var t := Renamed(before, newName, now);
      if validName.Failure? {
        return Fail(validName.error);
      }
      name := validName.value;
      updatedAt := now;
      assert State() == t.value;
      return Pass;
    }

    method UpdateDescription(newDescription: Option<string>, now: int)
      requires Valid()
      modifies this
      ensures Valid()
      ensures State() == Redescribed(old(State()), newDescription, now)
    {
      description := newDescription;
      updatedAt := now;
    }

    method UpdatePrice(newPrice: Option<Money>, now: int) returns (o: Outcome)
      requires Valid()
      requires newPrice.Some? ==> newPrice.value.Valid()
      modifies this
      ensures Valid()
      ensures Settles(o, old(State()), State(), Repriced(old(State()), newPrice, now))
    {
      if newPrice.None? {
        return Fail(NullPointer(PriceNullMessage));
      }
      price := newPrice.value;
      updatedAt := now;
      return Pass;
    }

    method AddStock(quantity: int, now: int) returns (o: Outcome)
      requires Valid()
      modifies this
      ensures Valid()
      ensures Settles(o, old(State()), State(), StockAdded(old(State()), quantity, now))
    {
      if quantity <= 0 {
        return Fail(IllegalArgument(AddQuantityMessage));
      }
      stockQuantity := stockQuantity + quantity;
      updatedAt := now;
      return Pass;
    }

    method RemoveStock(quantity: int, now: int) returns (o: Outcome)
      requires Valid()
      modifies this
      ensures Valid()
      ensures Settles(o, old(State()), State(), StockRemoved(old(State()), quantity, now))
    {
      if quantity <= 0 {
        return Fail(IllegalArgument(RemoveQuantityMessage));
      }
      if stockQuantity < quantity {
        return Fail(IllegalState(InsufficientStockMessage));
      }
      stockQuantity := stockQuantity - quantity;
      updatedAt := now;
      return Pass;
    }

    method Activate(now: int)
      requires Valid()
      modifies this
      ensures Valid()
      ensures State() == Activated(old(State()), now)
    {
      status := ACTIVE;
      updatedAt := now;
    }

    method Deactivate(now: int)
      requires Valid()
      modifies this
      ensures Valid()
      ensures State() == Deactivated(old(State()), now)
    {
      status := INACTIVE;
      updatedAt := now;
    }

    predicate IsActive()
      reads this
    {
      status == ACTIVE
    }

    predicate IsInStock()
      reads this
    {
      stockQuantity > 0
    }

    /** `isAvailable()`: active and in stock. */
    function IsAvailable(): (r: bool)
      reads this
      ensures r <==> status == ACTIVE && stockQuantity > 0
    {
      IsActive() && IsInStock()
    }

    /** `equals`: products are the same entity exactly when their ids are equal, whatever
        their other fields hold. */
    function Equals(other: Product?): (r: bool)
      ensures r <==> other != null && other.id == id
      ensures other == this ==> r
    {
      other != null && id == other.id
    }
  }

  /** `Equals` is an equivalence on non-null products, decided by the ids alone. */
  lemma EqualsIsIdentityEquality(a: Product, b: Product, c: Product)
    ensures a.Equals(a)
    ensures a.Equals(b) <==> b.Equals(a)
    ensures a.Equals(b) && b.Equals(c) ==> a.Equals(c)
    ensures a.Equals(b) <==> a.State().id == b.State().id
  {
  }

  /** Java's 32-bit `int` addition, which wraps around. */
  function JavaIntAdd(a: int, b: int): (r: int)
    requires -0x8000_0000 <= a < 0x8000_0000 && -0x8000_0000 <= b < 0x8000_0000
    ensures -0x8000_0000 <= r < 0x8000_0000
    ensures (r - (a + b)) % 0x1_0000_0000 == 0
  {
    var sum := a + b;
    if sum >= 0x8000_0000 then sum - 0x1_0000_0000
    else if sum < -0x8000_0000 then sum + 0x1_0000_0000
    else sum
  }

  /** `addStock` as the source computes it: `stockQuantity += quantity` on 32-bit ints. */
  function StockAddedAsWritten(s: ProductState, quantity: int, now: int): (r: Result<ProductState>)
    requires -0x8000_0000 <= s.stockQuantity < 0x8000_0000 && -0x8000_0000 <= quantity < 0x8000_0000
    ensures r.Success? <==> quantity > 0
    ensures r.Failure? ==> r.error == IllegalArgument(AddQuantityMessage)
    ensures r.Success? ==> r.value == s.(stockQuantity := JavaIntAdd(s.stockQuantity, quantity), updatedAt := now)
  {
    if quantity <= 0 then Failure(IllegalArgument(AddQuantityMessage))
    else Success(s.(stockQuantity := JavaIntAdd(s.stockQuantity, quantity), updatedAt := now))
  }

  /** On a product holding `Integer.MAX_VALUE` units, `addStock(1)` as written leaves a
      negative stock, breaking the invariant; StockAdded keeps it. */
  lemma AddStockOverflowBreaksInvariant()
    ensures var s := ProductState(ProductId("p-1"), "Widget", None, Money(999, "USD"),
                                  0x7FFF_FFFF, ACTIVE, 0, 0);
      s.Valid() &&
      StockAddedAsWritten(s, 1, 1).Success? &&
      StockAddedAsWritten(s, 1, 1).value.stockQuantity == -0x8000_0000 &&
      !StockAddedAsWritten(s, 1, 1).value.Valid() &&
      StockAdded(s, 1, 1).value.Valid()
  {
    var s := ProductState(ProductId("p-1"), "Widget", None, Money(999, "USD"), 0x7FFF_FFFF, ACTIVE, 0, 0);
    assert IsTrimmed("p-1") && IsTrimmed("Widget");
    Utf16LengthBounds("Widget");
    assert ToUpper("USD") == "USD" by {
      assert "USD"[1..] == "SD" && "SD"[1..] == "D" && "D"[1..] == [];
    }
  }
}
