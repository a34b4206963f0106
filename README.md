# Product API core, modelled in Dafny

This project models the product part of a small REST service over the
`SalesLT.Product` table. Two pieces are modelled.

- **The product models** (`src/api/models/product.py`).
  - The `ProductSize` enumeration, with its sorted listing of valid sizes.
  - The field validators of the creation payload: name, product number, colour, photo file name, size and weight.
  - The stored row and the read projection returned by the API.
  - The partial-update payload, and the merge it performs on a row.
- **The product routes** (`src/api/routes/products.py`). These are list with offset and limit, get, create, update and delete, all over one table.

Files:

- `wrappers.dfy`: `Option` and `Result`.
- `decimals.dfy`: decimal numbers as coefficient and exponent.
  - `quantize(Decimal('0.01'))` in the default context (28 digits, half-to-even rounding), including the `InvalidOperation` it raises.
- `product_sizes.dfy`: the size enumeration.
  - Python's ordering of strings.
  - `sorted` as an insertion sort proved to sort and to permute its input.
  - The listing of the valid sizes.
- `product_models.dfy`: the payloads, the validators, the row, the projection and the update merge.
- `product_routes.dfy`: the endpoints as methods of the class `ProductTable`, and `ExampleSession`, a worked example of the answers one client sees.
  - The class holds the stored rows (a map from `ProductID`), the store's iteration order and the next identity value.
  - It also has the `setattr` loop of the update endpoint and the not-found detail text.

Behaviour worth knowing:

- **Weight validation.**
  - A weight is quantized to two fractional digits, half to even.
  - For a magnitude of at least 10^26 − 0.005, the quantization raises `InvalidOperation`. That is an arithmetic error, not a value error, so it is not turned into a field error. The create request then ends in a server error.
- **What an update can do.**
  - An update runs no validators. A name of any length, a free-text size and an unrounded weight are stored as sent.
  - Explicit nulls are copied onto the row. A null in a column declared `nullable=False` (Name, ProductNumber, StandardCost, ListPrice, SellStartDate) makes the commit fail, and the table is left unchanged.
- **ModifiedDate.** The update endpoint does not touch `ModifiedDate`. Only creation sets it.

## Model

| member | source | states |
|---|---|---|
| Decimals.RoundHalfEven | src/api/models/product.py:106 | the quotient is within half a unit of `n/d`, and on an exact tie it is even |
| Decimals.RoundHalfEvenNegate | src/api/models/product.py:106 | half-to-even rounding is symmetric in sign |
| Decimals.CentsExact | src/api/models/product.py:106 | a value with at most two fractional digits has an exact hundredths count |
| Decimals.Cents | src/api/models/product.py:106 | the count of hundredths the quantization keeps, before the precision check; its nearness is stated by the two lemmas below |
| Decimals.CentsNearest | src/api/models/product.py:106 | no integer is nearer to 100 · w than the hundredths count |
| Decimals.CentsWithinHalf | src/api/models/product.py:106 | the hundredths count is at most half a unit from 100 · w, and even when exactly half |
| Decimals.QuantizeCents | src/api/models/product.py:106 | a successful quantization has exponent −2 |
| Decimals.QuantizeCentsNearest | src/api/models/product.py:106 | the result is within 0.005 of the input, no two-digit value is closer, and on a tie the last digit is even |
| Decimals.QuantizeCentsIdempotent | src/api/models/product.py:106 | quantizing a quantized value changes nothing |
| Decimals.QuantizeCentsRejects | src/api/models/product.py:106 | `InvalidOperation` is raised exactly when the magnitude is at least 10^26 − 0.005 |
| ProductSizes.Value | src/api/models/product.py:23-40 | each member's value is a letter size or a two-digit number |
| ProductSizes.FromValue | src/api/models/product.py:17-40 | a string names a size exactly when it is that size's value |
| ProductSizes.ValueRoundTrip | src/api/models/product.py:47-49 | the text of a size (`__str__`) reads back as that size |
| ProductSizes.StrLessIrreflexive | src/api/models/product.py:45 | no string sorts before itself |
| ProductSizes.StrLessTransitive | src/api/models/product.py:45 | string order is transitive |
| ProductSizes.StrLessTotal | src/api/models/product.py:45 | any two distinct strings are ordered one way or the other |
| ProductSizes.StrLessAsymmetric | src/api/models/product.py:45 | no two strings sort before each other |
| ProductSizes.Insert | src/api/models/product.py:45 | inserting into a sorted list keeps it sorted and adds exactly that element |
| ProductSizes.SortStrings | src/api/models/product.py:45 | `sorted` returns a sorted permutation of its input |
| ProductSizes.SortedUnique | src/api/models/product.py:45 | two sorted permutations of the same list are equal |
| ProductSizes.GetValidSizes | src/api/models/product.py:42-45 | `get_valid_sizes` is the listing below joined by ", " |
| ProductSizes.SortedValuesListing | src/api/models/product.py:43-45 | the sorted values are the eighteen sizes, each exactly once, strictly ascending: numeric sizes first, then the letter sizes |
| ProductModels.ValidateName | src/api/models/product.py:78-82 | a name is accepted exactly when it has at most 100 characters, and is kept unchanged |
| ProductModels.ValidateProductNumber | src/api/models/product.py:84-88 | a product number is accepted exactly when it has at most 50 characters, and is kept unchanged |
| ProductModels.ValidateColor | src/api/models/product.py:90-94 | an absent colour is accepted; a present one exactly when it has at most 30 characters |
| ProductModels.ValidatePhotoFileName | src/api/models/product.py:96-100 | an absent file name is accepted; a present one exactly when it has at most 100 characters |
| ProductModels.ValidateSize | src/api/models/product.py:63-67 | an absent size is accepted; a present one exactly when it is the value of a `ProductSize` |
| ProductModels.ValidateWeight | src/api/models/product.py:102-107 | an absent weight stays absent; a present one becomes a two-digit value within 0.005, and quantization raises exactly above the bound |
| ProductModels.ErrorMessage | src/api/models/product.py:78-99 | each length validator has a message, which starts with the field's name; the size has none of its own |
| ProductModels.FieldErrorsExact | src/api/models/product.py:77-100 | the errors name exactly the fields whose validator refuses the payload, the size error that size, and there are none exactly when all accept |
| ProductModels.FieldErrorsSize | src/api/models/product.py:63-67 | a size error is reported exactly when a sent size is not a value of the enumeration, and carries that size |
| ProductModels.FieldErrorsDistinct | src/api/models/product.py:77-100 | no two errors concern the same field |
| ProductModels.ValidateProductCreate | src/api/models/product.py:52-107 | validation raises exactly on an oversized weight; it succeeds exactly when every field is acceptable, changing only the weight to its half-even quantization; otherwise it reports the field errors, one for each refusing field |
| ProductModels.ValidateProductCreateIdempotent | src/api/routes/products.py:82 | validating an already validated payload again accepts it unchanged |
| ProductModels.FromCreate | src/api/routes/products.py:82-83 | the row keeps every payload field and takes the assigned id, the `rowguid` token and the creation time |
| ProductModels.ToRead | src/api/models/product.py:275-296 | the row is recovered from its read projection and its photo |
| ProductModels.ReadProjection | src/api/models/product.py:275-296 | the read projection drops only the photo bytes: the row is recovered from the projection and the photo |
| ProductModels.ModelDump | src/api/routes/products.py:119 | the dump holds each field at most once, in declaration order, and is empty exactly when nothing was sent |
| ProductModels.SetAttr | src/api/routes/products.py:121 | one assignment leaves a row the commit refuses exactly when it puts null into a NOT NULL column; it never changes the id, `rowguid`, `ModifiedDate` or the thumbnail fields |
| ProductModels.ApplyItems | src/api/routes/products.py:120-124 | the assignments lead to a refused commit exactly when one of them puts null into a NOT NULL column; otherwise the same columns are kept |
| ProductModels.Merge | src/api/routes/products.py:118-124 | the commit fails exactly when a NOT NULL column is sent null; otherwise the id, `rowguid`, `ModifiedDate` and the thumbnail fields are kept |
| ProductModels.ModelDumpIsMerge | src/api/routes/products.py:119-121 | assigning the sent fields one by one, in declaration order, performs the field-by-field merge |
| ProductModels.MergeEmptyIsNoop | src/api/routes/products.py:119-121 | an update that sends nothing leaves the row unchanged |
| ProductModels.MergeIdempotent | src/api/routes/products.py:119-121 | sending the same update twice gives the row that the first one gave |
| ProductModels.MergeSequential | src/api/routes/products.py:119-121 | two committed updates are the single update with the later fields over the earlier ones |
| ProductModels.MergeSkipsValidation | src/api/models/product.py:256-272 | the update path can store a name that the create validation rejects |
| ProductRoutes.NatToStringRoundTrip | src/api/routes/products.py:63 | the decimal text of a natural number parses back to it |
| ProductRoutes.IntToString | src/api/routes/products.py:63 | the text `str` gives an id: a minus sign exactly when it is negative, then decimal digits with no leading zero (so never `-0`), and it parses back to the id |
| ProductRoutes.IntToStringUnique | src/api/routes/products.py:63 | any text of that canonical form is the text of the number it spells, so the text of an id is the only one |
| ProductRoutes.CanonicalDigitsUnique | src/api/routes/products.py:63 | digits with no leading zero are the decimal text of the number they spell |
| ProductRoutes.NotFoundDetail | src/api/routes/products.py:61-64 | the detail is "Product with ID ", then exactly the canonical decimal text of the id, then " not found", and the id reads back from it |
| ProductRoutes.NotFoundDetailInjective | src/api/routes/products.py:61-64 | different ids give different not-found details |
| ProductRoutes.StatusCode | src/api/routes/products.py:68 | a success is answered with the route's declared status below 300, every error with a status of 400 or more |
| ProductRoutes.Page | src/api/routes/products.py:38 | `offset(skip).limit(limit)` gives at most `limit` rows: the run of rows starting at position `skip` |
| ProductRoutes.PagesTile | src/api/routes/products.py:38 | consecutive pages together form the page that spans both |
| ProductRoutes.InOrder | src/api/routes/products.py:38-39 | the projections of the rows, one per id, in the store's order |
| ProductRoutes.Without | src/api/routes/products.py:151-152 | removing an id keeps exactly the other ids, still ascending |
| ProductRoutes.SetEntries | src/api/routes/products.py:120-121 | the `setattr` loop applies the entries one after the other, refused once a NOT NULL column is given null |
| ProductRoutes.ApplyUpdate | src/api/routes/products.py:118-121 | dumping the sent fields and running the `setattr` loop over them computes the merge |
| ProductRoutes.ProductTable.constructor | src/api/models/product.py:227 | an empty table; the source line only declares the primary key the database assigns, and starting the identity values at 1 is this model's choice |
| ProductRoutes.ProductTable.ListProducts | src/api/routes/products.py:22-39 | the requested page of the projected rows in the order the store keeps them, at most `limit` of them; under the assumed ascending store order the ids ascend strictly |
| ProductRoutes.ProductTable.GetProduct | src/api/routes/products.py:42-65 | the projection of the stored row with status 200, or not-found (404) with the detail for that id |
| ProductRoutes.ProductTable.CreateProduct | src/api/routes/products.py:68-89 | a valid payload is inserted under the next id with the fresh `rowguid` and the creation time, and no other row changes; an invalid payload answers its field errors, an oversized weight a server error, and in both cases the table is unchanged; the status is 201, 422 or 500 accordingly |
| ProductRoutes.ProductTable.UpdateProduct | src/api/routes/products.py:92-127 | an absent id gives not-found; a null in a NOT NULL column gives a server error with the table unchanged; otherwise the merged row replaces the old one and is returned; the status is 404, 500 or 200 accordingly |
| ProductRoutes.ProductTable.DeleteProduct | src/api/routes/products.py:130-152 | an absent id gives not-found; otherwise exactly that row leaves the table and its order, with status 204 |

## Left out

- The database engine, the session, the SQL text, dependency injection and the HTTP framework are not modelled. The table is a map, and each endpoint is one method on it.
- Only `ProductID` and the `rowguid` token are modelled as unique; the token stays unique through the freshness precondition of `ProductTable.CreateProduct`. Foreign keys (`ProductModelID`, `ProductCategoryID`), the other uniqueness constraints in the database, and column widths are not modelled, nor are the other tables in the models file and their relationships.
- `uuid4()` and `datetime.now` become parameters: `guid`, which is required not to be held by any stored row, and `now`.
- Calendar times are integers, and the time zone is not modelled.
- ProductTable.ListProducts: `skip` and `limit` are natural numbers. A negative value, which the route passes on to the database, is not modelled.
  - The model assumes the database returns the rows in ascending `ProductID`. The route sets no `ORDER BY`, and SQL Server guarantees no row order without one. The strict ascent of ids in the result, and the `Increasing` order in `ProductTable.Valid`, hold only under that assumption.
  - The service connects through SQL Server (`mssql+pyodbc`, src/database/connection.py:47), whose SQL dialect refuses a non-zero `OFFSET` without an `ORDER BY`. On that database a request with `skip` of 1 or more fails as a server error. The model assumes a store that pages without an order, so it does not capture that failure; a `skip` of 0 is unaffected.
- ProductTable.UpdateProduct: the update payload takes any text as a size, and the model stores it and answers success. In the source the `Size` column has the SQLAlchemy `Enum` type (src/api/models/product.py:63-67), which raises an error when it reads back a string that is not one of the enumeration's values. The update route reads the row back at `session.refresh` (src/api/routes/products.py:125), after the commit at :124 has already stored it. So on such a size the route answers a server error with the table already changed. The model does not capture that.
  - The row is also not re-read after the commit. The model assumes the stored values are the ones written.
- ProductTable.GetProduct / ListProducts / DeleteProduct: once a row holding such a size is stored, every request that loads that row fails in the source with a server error when the column is read. That covers the get, list, update and delete routes (src/api/routes/products.py:38, 59, 111, 144). The model answers these requests as usual, so it does not capture those failures either.
- Once a NOT NULL column has been given null, the update loop stops applying the remaining fields. The commit is refused in either case, so the outcome is the same.
- Decimals: the sign of a negative zero is not modelled, because the coefficient is an integer. Other decimal contexts and signals are not modelled either.
- ValidateSize: the wording of the error for a size outside the enumeration comes from the validation library and is not modelled. Only the field and the input are recorded.
- ValidateProductCreate: type coercion of the other fields (strings to numbers, dates), which the validation library performs, is not modelled.
- ProductTable.CreateProduct: the model assumes that `Product.model_validate` accepts the payload although it carries no `rowguid`. The table model declares `rowguid` with no default (src/api/models/product.py:228), and the route assigns it only after that call (src/api/routes/products.py:82-83). If the validation library enforces the field there, every create fails with a server error before anything is inserted, and the model does not capture that.
- ProductTable.CreateProduct: the row returned by a route is a value here, not an object shared with the session. Aliasing between the two is not modelled.
- ProductSizes.GetValidSizes: this states the listing joined by ", ", not the concrete text that join produces.
