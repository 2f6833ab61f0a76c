# Product catalog domain, modelled in Dafny

This project models the domain core of a product-catalog microservice and proves
properties about it. The core is:

- the `Product` aggregate, including its name, stock and status rules and its timestamps;
- the value objects `Money`, `ProductId` and `ProductStatus`;
- the cross-product rules in `ProductDomainService`;
- the field-by-field conversions between the aggregate and its persistence record
  (`ProductMapper` and `ProductJpaEntity`).

Modules, one per source class:

| module | file | models |
|---|---|---|
| `Wrappers` | `wrappers.dfy` | Java `null` (`Option`) and the three exceptions the core throws (`Error`, `Result`, `Outcome`) |
| `JavaStrings` | `java_strings.dfy` | `String.trim`, `trim().isEmpty()`, `toUpperCase` and `equalsIgnoreCase` |
| `ProductStatuses` | `product_status.dfy` | the enum and its labels |
| `ProductIds` | `product_id.dfy` | `ProductId.of` and `generate` |
| `MoneyValues` | `money.dfy` | `BigDecimal` inputs as exact decimals, `setScale(2, HALF_UP)`, and `Money` |
| `Products` | `product.dfy` | the `Product` class, and its pure specification on `ProductState` |
| `ProductDomainService` | `product_domain_service.dfy` | uniqueness, creation and update checks, deletion, statistics |
| `ProductJpaEntities` | `product_jpa_entity.dfy` | the record, `fromDomain`, `toDomain` and `equals` |
| `ProductMapper` | `product_mapper.dfy` | `toJpaEntity` and `toDomainEntity` |

Modelling conventions:

- **Exceptions.** A Java method that throws returns a `Result` (or an `Outcome` when it
  returns nothing). Each error carries its exception kind (`IllegalArgument`,
  `IllegalState`, or `NullPointer` for `Objects.requireNonNull`) and the source's message.
  Contracts state which check fails first when several would.
- **Null.** An argument the code tests against `null` is an `Option`.
- **Clock and randomness.** Each `LocalDateTime.now()` call is an `int` parameter. The
  new-product constructor reads the clock twice, so it takes `clock1` and `clock2`.
  `UUID.randomUUID()` is a `uuid` parameter in the canonical 36-char text form.
- **Money.** A `Money` holds integer cents, because the private constructor always rounds
  to scale 2. A `BigDecimal` input is a `Decimal(unscaled, scale)`, and the half-up
  rounding is written out.
- **Product as a class.** `Product` is a class whose methods change its fields. Each
  mutator is proved against a pure transition function on the record `ProductState`
  (`Renamed`, `StockAdded`, `StockRemoved`, `Activated`, …). A failed mutation returns the
  error and leaves the state unchanged (the predicate `Settles`). Lemmas relate the
  transitions to each other.
- **Throwing constructors.** The two Java constructors can throw, so they become static
  methods `Product.New` and `Product.Load`. Each returns a fresh object, or exactly the
  error of the specification functions `NewProductState` and `LoadedProductState`.
- **Domain service inputs.** The domain service's repository calls are replaced by their
  answers, passed in by the caller: the candidates a name search returned, the existence
  flag, and the lists of all and of active products. The application services already call
  it this way (application/src/main/java/com/example/application/service/ProductCommandService.java:44-45).

## Model

Source paths are relative to the repository root.

| member | source | states |
|---|---|---|
| JavaStrings.TrimStart | domain/src/main/java/com/example/domain/model/Product.java:128 | the front-trimmed string is no longer than the input and starts with a char above U+0020, or is empty |
| JavaStrings.TrimEnd | domain/src/main/java/com/example/domain/model/Product.java:128 | the back-trimmed string is no longer than the input and ends with a char above U+0020, or is empty |
| JavaStrings.Trim | domain/src/main/java/com/example/domain/model/Product.java:128 | `String.trim`: the result is no longer than the input, and is empty or has both end chars above U+0020 (with the shape lemmas, it is the input minus its leading and trailing chars at or below U+0020) |
| JavaStrings.IsBlank | domain/src/main/java/com/example/domain/model/Product.java:122 | `s.trim().isEmpty()`, by definition the trim is empty; `BlankIffAllTrimmable` characterises it |
| JavaStrings.Utf16Units | domain/src/main/java/com/example/domain/model/Product.java:125 | a char takes one UTF-16 code unit up to U+FFFF and two (a surrogate pair) above |
| JavaStrings.Utf16Length | domain/src/main/java/com/example/domain/model/Product.java:125 | `String.length()`: the UTF-16 code units of a string, between its char count and twice that |
| JavaStrings.Utf16LengthBounds | domain/src/main/java/com/example/domain/model/Product.java:125 | a string of chars up to U+FFFF has UTF-16 length equal to its char count; one of chars all above U+FFFF has twice its char count |
| JavaStrings.UpperChar | domain/src/main/java/com/example/domain/model/Money.java:35 | upper-casing a char maps `a`-`z` to `A`-`Z` (32 code points down), leaves every other char as it is, and keeps it on the same side of U+0020 |
| JavaStrings.NormalizeCode | domain/src/main/java/com/example/domain/model/Money.java:35 | `currency.trim().toUpperCase()` by definition; `NormalizeCodeProperties` states what it yields |
| JavaStrings.EqualsIgnoreCase | domain/src/main/java/com/example/domain/service/ProductDomainService.java:39 | `equalsIgnoreCase`: equal lengths and chars equal after upper-casing, position by position |
| JavaStrings.TrimFixpoint | domain/src/main/java/com/example/domain/model/Product.java:125-128 | `trim` leaves a string unchanged exactly when neither end is a char at or below U+0020 |
| JavaStrings.TrimIdempotent | domain/src/main/java/com/example/domain/model/ProductId.java:20-24 | trimming twice is trimming once |
| JavaStrings.TrimStartShape | domain/src/main/java/com/example/domain/model/Product.java:128 | trimming the front drops only chars at or below U+0020 and keeps the rest of the string as a suffix |
| JavaStrings.TrimEndShape | domain/src/main/java/com/example/domain/model/Product.java:128 | trimming the back drops only chars at or below U+0020 and keeps the rest as a prefix |
| JavaStrings.BlankIffAllTrimmable | domain/src/main/java/com/example/domain/model/Product.java:122 | `trim().isEmpty()` holds exactly when every char is at or below U+0020 (both directions) |
| JavaStrings.NonBlankTrim | domain/src/main/java/com/example/domain/model/Product.java:122-128 | the trim of a non-blank string is non-empty, trimmed and non-blank |
| JavaStrings.ToUpper | domain/src/main/java/com/example/domain/model/Money.java:35 | upper-casing keeps the length and maps each char to its upper case in place |
| JavaStrings.UpperIdempotent | domain/src/main/java/com/example/domain/model/Money.java:35 | upper-casing an upper-cased string changes nothing |
| JavaStrings.TrimStartUpper | domain/src/main/java/com/example/domain/model/Money.java:35 | upper-casing commutes with trimming the front |
| JavaStrings.TrimEndUpper | domain/src/main/java/com/example/domain/model/Money.java:35 | upper-casing commutes with trimming the back |
| JavaStrings.TrimUpperCommute | domain/src/main/java/com/example/domain/model/Money.java:35 | `trim` and `toUpperCase` commute |
| JavaStrings.NormalizeCodeProperties | domain/src/main/java/com/example/domain/model/Money.java:32-35 | `trim().toUpperCase()` gives a trimmed upper-case code, is idempotent, and is empty exactly for blank input |
| JavaStrings.EqualsIgnoreCaseIsUpperEquality | domain/src/main/java/com/example/domain/service/ProductDomainService.java:39 | `equalsIgnoreCase` holds exactly when the upper-cased strings are equal |
| ProductStatuses.ProductStatus.Description | domain/src/main/java/com/example/domain/model/ProductStatus.java:8-20 | the labels are "Active", "Inactive" and "Discontinued", none of them empty |
| ProductStatuses.ProductStatus.ToString | domain/src/main/java/com/example/domain/model/ProductStatus.java:22-25 | `toString()` is the label |
| ProductStatuses.ExactlyThreeStatuses | domain/src/main/java/com/example/domain/model/ProductStatus.java:7-10 | every status is one of three distinct constants |
| ProductStatuses.FromDescription | domain/src/main/java/com/example/domain/model/ProductStatus.java:8-10 | the inverse of the three declared labels (no counterpart in the source, used only to prove the labels determine the status): a label it finds belongs to the status it returns |
| ProductStatuses.DescriptionDeterminesStatus | domain/src/main/java/com/example/domain/model/ProductStatus.java:8-10 | labels are pairwise distinct, and looking up a status's label gives back that status |
| ProductIds.ProductId.Valid | domain/src/main/java/com/example/domain/model/ProductId.java:16-29 | what both factories guarantee of every id: the value is non-empty and trimmed |
| ProductIds.Of | domain/src/main/java/com/example/domain/model/ProductId.java:20-25 | succeeds exactly for a non-null, non-blank value; otherwise the IllegalArgument "Product ID cannot be null or empty"; the id holds the trimmed value and is valid |
| ProductIds.OfIdempotent | domain/src/main/java/com/example/domain/model/ProductId.java:20-24 | `of(of(s).getValue())` equals `of(s)` under the id's value equality |
| ProductIds.OfValid | domain/src/main/java/com/example/domain/model/ProductId.java:20-24 | a valid id read back through `of` is equal to itself |
| ProductIds.Generate | domain/src/main/java/com/example/domain/model/ProductId.java:27-29 | a generated id is non-empty and trimmed, and `of` reads it back unchanged |
| MoneyValues.IsPositive | domain/src/main/java/com/example/domain/model/Money.java:29 | `amount.compareTo(BigDecimal.ZERO) > 0`: the unscaled value is positive, whatever the scale |
| MoneyValues.Money.Valid | domain/src/main/java/com/example/domain/model/Money.java:15-36 | what `of` and the operations guarantee of every value: cents ≥ 0, and a currency that is non-empty, trimmed and upper-case |
| MoneyValues.Money.Amount | domain/src/main/java/com/example/domain/model/Money.java:67-69 | `getAmount()`: the cents as a decimal of scale 2 |
| MoneyValues.HalfUpQuotient | domain/src/main/java/com/example/domain/model/Money.java:23-24 | the half-up quotient is within half a unit of the exact quotient and stays non-negative |
| MoneyValues.RoundHalfUpToCents | domain/src/main/java/com/example/domain/model/Money.java:23-24 | rounding a non-negative amount to cents gives non-negative cents |
| MoneyValues.RoundHalfUpBounds | domain/src/main/java/com/example/domain/model/Money.java:23-24 | for scale ≤ 2 the rounding is exact; otherwise the cents are the nearest value, and a tie rounds away from zero |
| MoneyValues.RoundCentsExact | domain/src/main/java/com/example/domain/model/Money.java:23-24 | an amount already at scale 2 is kept as is |
| MoneyValues.Make | domain/src/main/java/com/example/domain/model/Money.java:22-26 | the private constructor keeps the currency and keeps a scale-2 amount unchanged |
| MoneyValues.Of | domain/src/main/java/com/example/domain/model/Money.java:28-36 | amount check first ("Amount must be positive"), then currency check ("Currency cannot be null or empty"); on success cents are the half-up rounding, the currency is `upper(trim(c))`, and the value is valid |
| MoneyValues.OfCurrencyNormalized | domain/src/main/java/com/example/domain/model/Money.java:35 | two codes give equal money exactly when their normal forms agree |
| MoneyValues.OfLowerAndPaddedCodesAgree | domain/src/main/java/com/example/domain/model/Money.java:75-81 | `of(a, "usd")` equals `of(a, " USD ")` |
| MoneyValues.UsdCodes | domain/src/main/java/com/example/domain/model/Money.java:32-35 | "usd" and " USD " are non-blank and both normalise to "USD" |
| MoneyValues.OfCanStoreZero | domain/src/main/java/com/example/domain/model/Money.java:29-30 | 0.004 passes the positivity check and is stored as 0.00, so `of` guarantees only amount ≥ 0 |
| MoneyValues.OfValid | domain/src/main/java/com/example/domain/model/Money.java:28-36 | a valid positive money value read back from its amount and currency is equal to itself |
| MoneyValues.OfRefusesZero | domain/src/main/java/com/example/domain/model/Money.java:29-30 | a zero amount cannot be read back: "Amount must be positive" |
| MoneyValues.Money.Add | domain/src/main/java/com/example/domain/model/Money.java:42-47 | succeeds exactly for equal currencies; otherwise "Cannot add different currencies"; cents add and the currency is kept; validity is preserved |
| MoneyValues.Money.Subtract | domain/src/main/java/com/example/domain/model/Money.java:49-58 | the currency check comes first; only a strictly negative difference is refused, so zero is allowed; cents subtract and the currency is kept; validity is preserved |
| MoneyValues.Money.Multiply | domain/src/main/java/com/example/domain/model/Money.java:60-65 | succeeds exactly for a positive factor; cents are scaled and the currency is kept; validity is preserved |
| MoneyValues.SubtractUndoesAdd | domain/src/main/java/com/example/domain/model/Money.java:42-58 | subtracting what was added gives back the original value |
| MoneyValues.AddCommutes | domain/src/main/java/com/example/domain/model/Money.java:42-47 | `add` is defined on the same pairs in either order and gives the same value |
| MoneyValues.MultiplyStep | domain/src/main/java/com/example/domain/model/Money.java:60-65 | multiplying by n+1 is multiplying by n and adding once more |
| Products.IsValidName | domain/src/main/java/com/example/domain/model/Product.java:121-129 | a name `validateAndSetName` can return: non-empty, trimmed, at most 100 UTF-16 code units |
| Products.SurrogatePairsCountTwice | domain/src/main/java/com/example/domain/model/Product.java:125-126 | a name of 51 chars U+1F600 is 102 UTF-16 code units, so it fails with "Product name cannot exceed 100 characters" |
| Products.ValidateName | domain/src/main/java/com/example/domain/model/Product.java:121-129 | a null or blank name fails with "Product name cannot be null or empty"; a trimmed name longer than 100 UTF-16 code units (as `String.length()` counts) fails with "... cannot exceed 100 characters"; otherwise the result is the trimmed name, non-empty, at most 100 code units and trimmed |
| Products.ValidNameAccepted | domain/src/main/java/com/example/domain/model/Product.java:121-129 | a stored valid name passes validation unchanged |
| Products.ValidateStockQuantity | domain/src/main/java/com/example/domain/model/Product.java:131-136 | succeeds exactly for a non-negative quantity, keeping it; otherwise "Stock quantity cannot be negative" |
| Products.ProductState.Valid | domain/src/main/java/com/example/domain/model/Product.java:38-61 | the aggregate's invariant that both constructors establish and every operation keeps: a valid id, a valid name, a valid price, stock ≥ 0 |
| Products.NewProductState | domain/src/main/java/com/example/domain/model/Product.java:38-47 | checks name, then price (NullPointer), then stock; on success the product is ACTIVE with the trimmed name, the given stock and price, a generated id, and the two clock readings; it is valid |
| Products.LoadedProductState | domain/src/main/java/com/example/domain/model/Product.java:50-61 | checks id, name, price, stock, status and createdAt in source order, each with its own error; on success it copies the fields, and a missing updatedAt becomes createdAt |
| Products.NewProductFacts | domain/src/main/java/com/example/domain/model/Product.java:38-47 | a new product is ACTIVE, its name is `trim(input)`, non-empty and at most 100 UTF-16 code units, its stock is the input; it is available exactly when that stock is positive; createdAt equals updatedAt exactly when the two clock readings agree |
| Products.Renamed | domain/src/main/java/com/example/domain/model/Product.java:64-67 | succeeds exactly when the name validates, failing with its error; on success only the name (validated) and updatedAt change; validity is preserved |
| Products.Redescribed | domain/src/main/java/com/example/domain/model/Product.java:69-72 | only the description and updatedAt change, and null is accepted; validity is preserved |
| Products.Repriced | domain/src/main/java/com/example/domain/model/Product.java:74-77 | a null price fails with "Price cannot be null"; otherwise only the price and updatedAt change |
| Products.StockAdded | domain/src/main/java/com/example/domain/model/Product.java:79-85 | q ≤ 0 fails with IllegalArgument; otherwise stock' = stock + q and updatedAt' = now; the stock grows and stays ≥ 0 |
| Products.StockRemoved | domain/src/main/java/com/example/domain/model/Product.java:87-96 | q ≤ 0 fails with IllegalArgument, checked first; q > stock fails with IllegalState "Insufficient stock available"; otherwise stock' = stock − q ≥ 0 |
| Products.Activated | domain/src/main/java/com/example/domain/model/Product.java:98-101 | from any status the status becomes ACTIVE and updatedAt becomes now; nothing else changes |
| Products.Deactivated | domain/src/main/java/com/example/domain/model/Product.java:103-106 | from any status the status becomes INACTIVE and updatedAt becomes now; nothing else changes |
| Products.AddThenRemove | domain/src/main/java/com/example/domain/model/Product.java:79-96 | after adding a, removing b succeeds exactly when b ≤ stock + a, leaving stock + a − b ≥ 0; otherwise it is the IllegalState failure |
| Products.StatusTransitionsIdempotent | domain/src/main/java/com/example/domain/model/Product.java:98-106 | activate and deactivate are idempotent, and the later call overrides the earlier |
| Products.ToggleScenario | domain/src/main/java/com/example/domain/model/Product.java:98-106 | activate, deactivate, activate ends ACTIVE; id, createdAt, name, price and stock are unchanged; the last clock reading is kept |
| Products.Product.New | domain/src/main/java/com/example/domain/model/Product.java:38-47 | returns a fresh valid product whose state is `NewProductState`, or exactly its error |
| Products.Product.Load | domain/src/main/java/com/example/domain/model/Product.java:50-61 | returns a fresh valid product whose state is `LoadedProductState`, or exactly its error |
| Products.Product.UpdateName | domain/src/main/java/com/example/domain/model/Product.java:64-67 | the new state is `Renamed`; on failure name and updatedAt are untouched; validity is kept |
| Products.Product.UpdateDescription | domain/src/main/java/com/example/domain/model/Product.java:69-72 | the new state is `Redescribed`; validity is kept |
| Products.Product.UpdatePrice | domain/src/main/java/com/example/domain/model/Product.java:74-77 | the new state is `Repriced`, or it is unchanged with its error; validity is kept |
| Products.Product.AddStock | domain/src/main/java/com/example/domain/model/Product.java:79-85 | the new state is `StockAdded`, or it is unchanged with its error; validity (stock ≥ 0) is kept |
| Products.Product.RemoveStock | domain/src/main/java/com/example/domain/model/Product.java:87-96 | the new state is `StockRemoved`, or it is unchanged with its error; validity (stock ≥ 0) is kept |
| Products.Product.Activate | domain/src/main/java/com/example/domain/model/Product.java:98-101 | the new state is `Activated`; validity is kept |
| Products.Product.Deactivate | domain/src/main/java/com/example/domain/model/Product.java:103-106 | the new state is `Deactivated`; validity is kept |
| Products.Product.IsActive | domain/src/main/java/com/example/domain/model/Product.java:108-110 | `isActive()`: the status is ACTIVE |
| Products.Product.IsInStock | domain/src/main/java/com/example/domain/model/Product.java:112-114 | `isInStock()`: the stock is positive |
| Products.Product.IsAvailable | domain/src/main/java/com/example/domain/model/Product.java:108-118 | available exactly when the status is ACTIVE and the stock is positive |
| Products.Product.Equals | domain/src/main/java/com/example/domain/model/Product.java:171-177 | equal exactly when the other is non-null with the same id, whatever other fields hold; reflexive |
| Products.EqualsIsIdentityEquality | domain/src/main/java/com/example/domain/model/Product.java:171-177 | product equality is reflexive, symmetric, transitive, and decided by the ids |
| Products.JavaIntAdd | domain/src/main/java/com/example/domain/model/Product.java:83 | the 32-bit sum is in int range and congruent to the true sum modulo 2^32 |
| Products.StockAddedAsWritten | domain/src/main/java/com/example/domain/model/Product.java:79-85 | `addStock` with the source's 32-bit `+=`, on any int stock (negative ones included): q ≤ 0 fails with IllegalArgument "Stock quantity to add must be positive"; otherwise stock' = the wrapped sum and updatedAt' = now |
| Products.AddStockOverflowBreaksInvariant | domain/src/main/java/com/example/domain/model/Product.java:83 | with stock `Integer.MAX_VALUE`, `addStock(1)` as written yields stock −2^31 and an invalid product, while `StockAdded` keeps it valid |
| ProductDomainService.NoneClashes | domain/src/main/java/com/example/domain/service/ProductDomainService.java:38-41 | the stream's filter/noneMatch holds exactly when no candidate clashes |
| ProductDomainService.IsProductNameUnique | domain/src/main/java/com/example/domain/service/ProductDomainService.java:31-42 | false for a null or blank name; with no exclusion, true exactly when no candidate's name equals `trim(name)` ignoring case; with an exclusion, true exactly when every such candidate has the excluded id |
| ProductDomainService.UniquenessIgnoresNonMatching | domain/src/main/java/com/example/domain/service/ProductDomainService.java:36-39 | any sub-list holding every matching product, such as a substring search, gives the same answer as the whole catalog |
| ProductDomainService.ValidateProductForCreation | domain/src/main/java/com/example/domain/service/ProductDomainService.java:50-61 | passes exactly when the name is unique with nothing excluded and the product is ACTIVE; the duplicate-name error comes first, then "New products must be created as active" |
| ProductDomainService.DuplicateNameBlocksCreation | domain/src/main/java/com/example/domain/service/ProductDomainService.java:53-56 | a product whose name an existing product has (ignoring case) is refused as a duplicate |
| ProductDomainService.ValidateProductForUpdate | domain/src/main/java/com/example/domain/service/ProductDomainService.java:69-81 | a missing product fails first with "Product with ID ... does not exist"; otherwise it passes exactly when the name is unique excluding the product's own id |
| ProductDomainService.UpdateIgnoresOwnRecord | domain/src/main/java/com/example/domain/service/ProductDomainService.java:77-80 | when only the product's own records share its name, the update passes |
| ProductDomainService.CanDeleteProduct | domain/src/main/java/com/example/domain/service/ProductDomainService.java:90-96 | the answer is exactly the existence flag |
| ProductDomainService.CountInStock | domain/src/main/java/com/example/domain/service/ProductDomainService.java:111-113 | the count is at most the list length; it is zero exactly when nothing is in stock and full exactly when everything is |
| ProductDomainService.CountInStockAppend | domain/src/main/java/com/example/domain/service/ProductDomainService.java:111-113 | the count distributes over list concatenation |
| ProductDomainService.InventoryStatistics | domain/src/main/java/com/example/domain/service/ProductDomainService.java:129-144 | the five counts of the statistics record, as unbounded integers |
| ProductDomainService.CalculateInventoryStatistics | domain/src/main/java/com/example/domain/service/ProductDomainService.java:104-123 | total and active are the list sizes; active + inactive = total; inStock counts the active products with stock; inStock + outOfStock = active with 0 ≤ inStock ≤ active; inactive ≥ 0 exactly when the active list is no longer than the whole |
| ProductJpaEntities.ProductJpaEntity | infrastructure/src/main/java/com/example/infrastructure/persistence/ProductJpaEntity.java:23-48 | the nine columns: every reference column may be null (an `Option`), the stock is a plain int, the price a decimal |
| ProductJpaEntities.ProductJpaEntity.Equals | infrastructure/src/main/java/com/example/infrastructure/persistence/ProductJpaEntity.java:179-185 | records are equal exactly when their ids are equal, two null ids included |
| ProductJpaEntities.EntityOf | infrastructure/src/main/java/com/example/infrastructure/persistence/ProductJpaEntity.java:71-85 | every column is the corresponding product field: the id's value, the amount at scale 2, the currency, status and both timestamps |
| ProductJpaEntities.DomainStateOf | infrastructure/src/main/java/com/example/infrastructure/persistence/ProductJpaEntity.java:90-104 | succeeds exactly when the record meets every domain rule; a blank id fails first, then money errors, then the loading constructor's errors in its order (name, price, stock, status, createdAt), since the result is exactly `LoadedProductState` on the parsed id and money; on success the state is valid, with trimmed id and name, rounded cents, normalised currency, and the other fields copied |
| ProductJpaEntities.FromDomain | infrastructure/src/main/java/com/example/infrastructure/persistence/ProductJpaEntity.java:71-85 | null is refused with "Product cannot be null"; otherwise the result is the field copy |
| ProductJpaEntities.ToDomain | infrastructure/src/main/java/com/example/infrastructure/persistence/ProductJpaEntity.java:90-104 | returns a fresh valid product whose state is `DomainStateOf`, or exactly its error |
| ProductJpaEntities.RoundTrip | infrastructure/src/test/java/com/example/infrastructure/persistence/mapper/ProductMapperTest.java:99-115 | domain → record → domain gives back the same state exactly when the price is above zero; a zero price fails with "Amount must be positive" |
| ProductJpaEntities.ReadNormalizes | infrastructure/src/main/java/com/example/infrastructure/persistence/ProductJpaEntity.java:90-104 | a state read from a record, with a positive price, survives another write and read unchanged |
| ProductJpaEntities.EntitiesOfOneProductAreEqual | infrastructure/src/main/java/com/example/infrastructure/persistence/ProductJpaEntity.java:179-185 | records written from two states of the same product are equal |
| ProductMapper.ToJpaEntity | infrastructure/src/main/java/com/example/infrastructure/persistence/mapper/ProductMapper.java:32-46 | null is refused; otherwise it copies every field, and it agrees with `fromDomain` |
| ProductMapper.ToDomainEntity | infrastructure/src/main/java/com/example/infrastructure/persistence/mapper/ProductMapper.java:55-71 | a null record is refused with "JPA entity cannot be null"; otherwise the result or failure is that of `toDomain` |
| ProductMapper.RoundTripProduct | infrastructure/src/test/java/com/example/infrastructure/persistence/mapper/ProductMapperTest.java:99-115 | a live product written and read back gives a fresh product with every field and the id equal, exactly when its price is above zero |
| ProductMapper.StatusAndCurrencyPreserved | infrastructure/src/test/java/com/example/infrastructure/persistence/mapper/ProductMapperTest.java:135-196 | every status, and every valid currency code, survives the round trip |

## Left out

- Default `LocalDateTime.now()` and `UUID.randomUUID()` calls: these are parameters (clock readings as `int`, the UUID as its text form). Timestamps are compared only for equality, as the source does.
- ProductIds.Generate: requires its parameter to be canonical UUID text; freshness (that two generated ids differ) is randomness and is not modelled.
- `Money.of(double)` and the `double averagePrice` records: floating point.
- All `toString` methods except `ProductStatus.toString`, and all `hashCode` methods: text output and hashing. Equality of `Money` and `ProductId` is Dafny's structural equality on the datatypes. Every `Money` amount has scale 2, so `BigDecimal.equals`, which also compares scales, coincides with equal cents.
- The record's setters (`ProductJpaEntity.java:106-177`) and its JPA annotations: persistence plumbing.
- `Money.add(null)`, `subtract(null)` and the product arguments of the domain service: a `Money` or `Product` argument is always present. Only arguments the code checks against null are `Option`s.
- Values built by private constructors: `Money` values and `ProductId`s that enter a product are required to be `Valid()`, because the private constructors make other values unreachable in the source.
- `toUpperCase` and `equalsIgnoreCase`: modelled as ASCII case folding; locale-dependent and non-ASCII case mappings are not modelled. A Dafny `char` is a Unicode scalar value; string lengths that the source compares (the 100-unit name limit) are counted in UTF-16 code units by `Utf16Length`. A Java `String` may hold an unpaired surrogate (a name such as `"\uD800x"`, which `validateAndSetName` accepts); a Dafny `char` cannot, so such strings cannot be given to the model at all.
- Products.StockAdded: uses unbounded integers; the source's 32-bit wrap-around is modelled separately by `StockAddedAsWritten` (see Findings). Other `int` arithmetic, such as `multiply`'s factor and the stock in `removeStock`, is unbounded. The `long` counts of the statistics are unbounded too.
- Products.Product.AddStock: adds with unbounded integers, as `StockAdded` does, so its kept validity (stock ≥ 0) does not hold in the source at `Integer.MAX_VALUE`, where the Java `int` wraps; see the Findings row for Product.java:83.
- The domain service's repository (`findByNameContaining`, `existsById`, `findAll`, `findActiveProducts`) and its null-repository constructor check: the repository's answers are parameters.
- Web controllers, adapters, use-case interfaces, application services, repositories, DTOs, configuration, the entry point and the architecture tests: framework plumbing outside the domain core.
- Bean validation annotations on domain fields, such as `@Positive` on the stock: the framework enforces them, not the code. The model follows the code, which allows a stock of 0.
- The code and its documented behaviour differ in two places, and the model follows the code. First, a new product's `createdAt` and `updatedAt` are two separate clock reads, so they are equal only when the two readings agree. Second, `subtract` refuses only a strictly negative result, so a zero result is allowed.

## Findings

| source | as written | input that shows it | evidently intended | confidence | as-written member | corrected member |
|---|---|---|---|---|---|---|
| domain/src/main/java/com/example/domain/model/Product.java:83 | `stockQuantity += quantity` on a Java `int` wraps around on overflow | a product with stock 2147483647 and `addStock(1)`: the stock becomes −2147483648, breaking the non-negative stock rule | the stock grows by the quantity and never becomes negative (an overflow check, or a wider type) | not executed | Products.AddStockOverflowBreaksInvariant | Products.StockAdded |
