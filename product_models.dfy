/**
 * The product entity: the payload accepted on creation with its field
 * validators, the stored row, the read projection returned by the API, and
 * the partial-update payload together with the merge it performs on a row.
 */
module ProductModels {
  import opened Wrappers
  import opened Decimals
  import ProductSizes

  /** A `datetime`, as an opaque point on a time line. */
  type Timestamp = int

  /** The bytes of a thumbnail image. */
  type Bytes = seq<bv8>

  // ===========================================================================
  // Field validators of the creation payload

  const MaxNameLength: nat := 100
  const MaxProductNumberLength: nat := 50
  const MaxColorLength: nat := 30
  const MaxPhotoFileNameLength: nat := 100

  /** A field-level validation error, reported with the field it concerns. */
  datatype FieldError =
    | NameTooLong
    | ProductNumberTooLong
    | ColorTooLong
    | PhotoFileNameTooLong
    | NotAProductSize(input: string)

  /** The field an error is reported on. */
  function ErrorField(e: FieldError): string
  {
    match e
    case NameTooLong => "Name"
    case ProductNumberTooLong => "ProductNumber"
    case ColorTooLong => "Color"
    case PhotoFileNameTooLong => "ThumbnailPhotoFileName"
    case NotAProductSize(_) => "Size"
  }

  /** The message a validator raises; a size outside the enumeration is
      reported by the enumeration's own type check, whose wording belongs to
      the validation library and is left open here. */
  function ErrorMessage(e: FieldError): (r: Option<string>)
    ensures r.Some? <==> !e.NotAProductSize?
    ensures r.Some? ==> ErrorField(e) <= r.value
  {
    match e
    case NameTooLong => Some("Name must be 100 characters or less")
    case ProductNumberTooLong => Some("ProductNumber must be 50 characters or less")
    case ColorTooLong => Some("Color must be 30 characters or less")
    case PhotoFileNameTooLong => Some("ThumbnailPhotoFileName must be 100 characters or less")
    case NotAProductSize(_) => None
  }

  /** `validate_name`: a name is accepted unchanged up to 100 characters. */
  function ValidateName(v: string): (r: Result<string, FieldError>)
    ensures r.Ok? <==> |v| <= MaxNameLength
    ensures r.Ok? ==> r.value == v
    ensures r.Err? ==> r.error == NameTooLong
  {
    if |v| > MaxNameLength then Err(NameTooLong) else Ok(v)
  }

  /** `validate_product_number`: accepted unchanged up to 50 characters. */
  function ValidateProductNumber(v: string): (r: Result<string, FieldError>)
    ensures r.Ok? <==> |v| <= MaxProductNumberLength
    ensures r.Ok? ==> r.value == v
    ensures r.Err? ==> r.error == ProductNumberTooLong
  {
    if |v| > MaxProductNumberLength then Err(ProductNumberTooLong) else Ok(v)
  }

  /** `validate_color`: an absent colour is accepted; a present one up to 30
      characters. */
  function ValidateColor(v: Option<string>): (r: Result<Option<string>, FieldError>)
    ensures v.None? ==> r.Ok?
    ensures v.Some? ==> (r.Ok? <==> |v.value| <= MaxColorLength)
    ensures r.Ok? ==> r.value == v
    ensures r.Err? ==> r.error == ColorTooLong
  {
    if v.Some? && |v.value| > MaxColorLength then Err(ColorTooLong) else Ok(v)
  }

  /** `validate_photo_filename`: an absent file name is accepted; a present
      one up to 100 characters. */
  function ValidatePhotoFileName(v: Option<string>): (r: Result<Option<string>, FieldError>)
    ensures v.None? ==> r.Ok?
    ensures v.Some? ==> (r.Ok? <==> |v.value| <= MaxPhotoFileNameLength)
    ensures r.Ok? ==> r.value == v
    ensures r.Err? ==> r.error == PhotoFileNameTooLong
  {
    if v.Some? && |v.value| > MaxPhotoFileNameLength then Err(PhotoFileNameTooLong) else Ok(v)
  }

  /** The `Optional[ProductSize]` type check: an absent size is accepted, a
      present one must be the value of a member of the enumeration, which is
      then stored as that member's value. */
  function ValidateSize(v: Option<string>): (r: Result<Option<string>, FieldError>)
    ensures v.None? ==> r.Ok?
    ensures v.Some? ==> (r.Ok? <==> exists s :: ProductSizes.Value(s) == v.value)
    ensures r.Ok? ==> r.value == v
    ensures r.Err? ==> r.error == NotAProductSize(v.value)
  {
    if v.None? then Ok(None)
    else match ProductSizes.FromValue(v.value)
      case None => Err(NotAProductSize(v.value))
      case Some(s) =>
        ProductSizes.ValueRoundTrip(s);
        Ok(Some(ProductSizes.Value(s)))
  }

  /** `validate_weight`: an absent weight stays absent; a present one is
      quantized to exactly two fractional digits, rounding half to even.
      The quantization raises `InvalidOperation`, which is not a value error,
      exactly for magnitudes of at least 10^26 - 0.005. */
  function ValidateWeight(v: Option<Decimal>): (r: Result<Option<Decimal>, DecimalError>)
    ensures v.None? ==> r == Ok(None)
    ensures v.Some? ==> (r.Err? <==> RAbs(ToReal(v.value)) >= Pow10(Precision - 2) as real - 0.005)
    ensures v.Some? ==> (r.Ok? <==> QuantizeCents(v.value).Ok?)
    ensures v.Some? && r.Ok? ==>
      && r.value.Some?
      && QuantizeCents(v.value) == Ok(r.value.value)
      && r.value.value.exp == -2
      && RAbs(ToReal(r.value.value) - ToReal(v.value)) <= 0.005
  {
    if v.None? then Ok(None)
    else
      QuantizeCentsRejects(v.value);
      match QuantizeCents(v.value)
      case Err(e) => Err(e)
      case Ok(w) =>
        QuantizeCentsNearest(v.value, 0);
        Ok(Some(w))
  }

  // ===========================================================================
  // The creation payload and its validation

  /** `ProductCreate`, that is every field of `ProductBase`. */
  datatype ProductCreate = ProductCreate(
    Name: string,
    ProductNumber: string,
    Color: Option<string>,
    StandardCost: Decimal,
    ListPrice: Decimal,
    Size: Option<string>,
    Weight: Option<Decimal>,
    SellStartDate: Timestamp,
    SellEndDate: Option<Timestamp>,
    DiscontinuedDate: Option<Timestamp>,
    ThumbNailPhoto: Option<Bytes>,
    ThumbnailPhotoFileName: Option<string>,
    ProductModelID: Option<int>,
    ProductCategoryID: Option<int>)

  /** Validating a payload gives the validated model, the list of field
      errors, or the signal a validator raised that is not a field error. */
  datatype Validation =
    | Valid(product: ProductCreate)
    | Invalid(errors: seq<FieldError>)
    | Raised(signal: DecimalError)

  function ErrorsOf<T>(r: Result<T, FieldError>): (es: seq<FieldError>)
    ensures |es| <= 1
  {
    if r.Err? then [r.error] else []
  }

  /** The field errors of a payload, in the order in which its fields are
      declared. */
  function FieldErrors(b: ProductCreate): seq<FieldError>
  {
    ErrorsOf(ValidateName(b.Name))
    + ErrorsOf(ValidateProductNumber(b.ProductNumber))
    + ErrorsOf(ValidateColor(b.Color))
    + ErrorsOf(ValidateSize(b.Size))
    + ErrorsOf(ValidatePhotoFileName(b.ThumbnailPhotoFileName))
  }

  /** The condition each field validator puts on a payload. */
  ghost predicate FieldsAcceptable(b: ProductCreate)
  {
    && |b.Name| <= MaxNameLength
    && |b.ProductNumber| <= MaxProductNumberLength
    && (b.Color.Some? ==> |b.Color.value| <= MaxColorLength)
    && (b.Size.Some? ==> exists s :: ProductSizes.Value(s) == b.Size.value)
    && (b.ThumbnailPhotoFileName.Some? ==> |b.ThumbnailPhotoFileName.value| <= MaxPhotoFileNameLength)
  }

  /** The field errors name exactly the fields whose validator refuses the
      payload, and there are none exactly when every validator accepts it. */
  lemma FieldErrorsExact(b: ProductCreate)
    ensures FieldErrors(b) == [] <==> FieldsAcceptable(b)
    ensures NameTooLong in FieldErrors(b) <==> |b.Name| > MaxNameLength
    ensures ProductNumberTooLong in FieldErrors(b) <==> |b.ProductNumber| > MaxProductNumberLength
    ensures ColorTooLong in FieldErrors(b) <==> b.Color.Some? && |b.Color.value| > MaxColorLength
    ensures PhotoFileNameTooLong in FieldErrors(b) <==>
      b.ThumbnailPhotoFileName.Some? && |b.ThumbnailPhotoFileName.value| > MaxPhotoFileNameLength
    ensures forall t :: NotAProductSize(t) in FieldErrors(b) <==> b.Size == Some(t) && ValidateSize(b.Size).Err?
  {
    var n := ErrorsOf(ValidateName(b.Name));
    var p := ErrorsOf(ValidateProductNumber(b.ProductNumber));
    var c := ErrorsOf(ValidateColor(b.Color));
    var z := ErrorsOf(ValidateSize(b.Size));
    var f := ErrorsOf(ValidatePhotoFileName(b.ThumbnailPhotoFileName));
    assert FieldErrors(b) == n + p + c + z + f;
    assert FieldErrors(b) == [] <==> n == [] && p == [] && c == [] && z == [] && f == [];
    FieldErrorsSize(b);
  }

  /** The position of an error's field among the validated fields. */
  function ErrorRank(e: FieldError): nat
  {
    match e
    case NameTooLong => 0
    case ProductNumberTooLong => 1
    case ColorTooLong => 2
    case NotAProductSize(_) => 3
    case PhotoFileNameTooLong => 4
  }

  ghost predicate RanksAscending(es: seq<FieldError>)
  {
    forall i, j :: 0 <= i < j < |es| ==> ErrorRank(es[i]) < ErrorRank(es[j])
  }

  lemma RanksAppend(a: seq<FieldError>, b: seq<FieldError>, m: nat, m2: nat)
    requires RanksAscending(a) && RanksAscending(b)
    requires forall e :: e in a ==> ErrorRank(e) < m
    requires forall e :: e in b ==> m <= ErrorRank(e) < m2
    requires m <= m2
    ensures RanksAscending(a + b)
    ensures forall e :: e in a + b ==> ErrorRank(e) < m2
  {
    forall i, j | 0 <= i < j < |a + b| ensures ErrorRank((a + b)[i]) < ErrorRank((a + b)[j]) {
      if j >= |a| {
        assert (a + b)[j] == b[j - |a|] && b[j - |a|] in b;
        if i < |a| {
          assert (a + b)[i] == a[i] && a[i] in a;
        }
      }
    }
  }

  lemma ErrorFieldRank(e1: FieldError, e2: FieldError)
    requires ErrorField(e1) == ErrorField(e2)
    ensures ErrorRank(e1) == ErrorRank(e2)
  {
  }

  /** Errors come in field order, one per field at most. */
  lemma FieldErrorsDistinct(b: ProductCreate)
    ensures forall i, j :: 0 <= i < j < |FieldErrors(b)| ==> ErrorField(FieldErrors(b)[i]) != ErrorField(FieldErrors(b)[j])
  {
    var n := ErrorsOf(ValidateName(b.Name));
    var p := ErrorsOf(ValidateProductNumber(b.ProductNumber));
    var c := ErrorsOf(ValidateColor(b.Color));
    var z := ErrorsOf(ValidateSize(b.Size));
    var f := ErrorsOf(ValidatePhotoFileName(b.ThumbnailPhotoFileName));
    RanksAppend(n, p, 1, 2);
    RanksAppend(n + p, c, 2, 3);
    RanksAppend(n + p + c, z, 3, 4);
    RanksAppend(n + p + c + z, f, 4, 5);
    var es := FieldErrors(b);
    assert es == n + p + c + z + f;
    forall i, j | 0 <= i < j < |es| ensures ErrorField(es[i]) != ErrorField(es[j]) {
      if ErrorField(es[i]) == ErrorField(es[j]) {
        ErrorFieldRank(es[i], es[j]);
        assert false;
      }
    }
  }

  /** A size error is reported exactly for a sent size that is not a value of
      the enumeration, and carries that size. */
  lemma FieldErrorsSize(b: ProductCreate)
    ensures forall t :: NotAProductSize(t) in FieldErrors(b) <==> b.Size == Some(t) && ValidateSize(b.Size).Err?
  {
    var z := ErrorsOf(ValidateSize(b.Size));
    var others := ErrorsOf(ValidateName(b.Name)) + ErrorsOf(ValidateProductNumber(b.ProductNumber))
      + ErrorsOf(ValidateColor(b.Color));
    assert forall e :: e in others ==> !e.NotAProductSize?;
    assert forall e :: e in ErrorsOf(ValidatePhotoFileName(b.ThumbnailPhotoFileName)) ==> !e.NotAProductSize?;
    assert FieldErrors(b) == others + z + ErrorsOf(ValidatePhotoFileName(b.ThumbnailPhotoFileName));
  }

  /** Validation of a `ProductCreate` payload: the validators run field by
      field and their errors are collected; the weight validator's
      `InvalidOperation` escapes the validation as it is raised. */
  function ValidateProductCreate(b: ProductCreate): (r: Validation)
    ensures r.Raised? <==> b.Weight.Some? && RAbs(ToReal(b.Weight.value)) >= Pow10(Precision - 2) as real - 0.005
    ensures r.Valid? <==> FieldsAcceptable(b) && !r.Raised?
    ensures r.Valid? ==> r.product == b.(Weight := r.product.Weight)
    ensures r.Valid? && b.Weight.None? ==> r.product.Weight.None?
    ensures r.Valid? && b.Weight.Some? ==>
      && r.product.Weight.Some?
      && QuantizeCents(b.Weight.value) == Ok(r.product.Weight.value)
      && r.product.Weight.value.exp == -2
      && RAbs(ToReal(r.product.Weight.value) - ToReal(b.Weight.value)) <= 0.005
    ensures r.Invalid? ==> r.errors == FieldErrors(b) && r.errors != []
    ensures r.Invalid? ==> (NameTooLong in r.errors <==> |b.Name| > MaxNameLength)
    ensures r.Invalid? ==> (ProductNumberTooLong in r.errors <==> |b.ProductNumber| > MaxProductNumberLength)
    ensures r.Invalid? ==> (ColorTooLong in r.errors <==> b.Color.Some? && |b.Color.value| > MaxColorLength)
    ensures r.Invalid? ==> (PhotoFileNameTooLong in r.errors <==>
      b.ThumbnailPhotoFileName.Some? && |b.ThumbnailPhotoFileName.value| > MaxPhotoFileNameLength)
    ensures r.Invalid? ==> forall t :: NotAProductSize(t) in r.errors <==> b.Size == Some(t) && ValidateSize(b.Size).Err?
  {
    FieldErrorsExact(b);
    match ValidateWeight(b.Weight)
    case Err(e) => Raised(e)
    case Ok(w) =>
      var errors := FieldErrors(b);
      if errors == [] then Valid(b.(Weight := w)) else Invalid(errors)
  }

  /** `Product.model_validate` runs the same validators again on a payload
      that has already passed them; they accept it and change nothing. */
  lemma ValidateProductCreateIdempotent(b: ProductCreate)
    requires ValidateProductCreate(b).Valid?
    ensures ValidateProductCreate(ValidateProductCreate(b).product) == ValidateProductCreate(b)
  {
    var v := ValidateProductCreate(b).product;
    if b.Weight.Some? {
      QuantizeCentsIdempotent(b.Weight.value);
    }
    assert ValidateWeight(v.Weight) == Ok(v.Weight);
    assert FieldErrors(v) == FieldErrors(b);
  }

  // ===========================================================================
  // The stored row and its read projection

  /** A row of the product table: every field of the `Product` table model. */
  datatype Product = Product(
    ProductID: int,
    Name: string,
    ProductNumber: string,
    Color: Option<string>,
    StandardCost: Decimal,
    ListPrice: Decimal,
    Size: Option<string>,
    Weight: Option<Decimal>,
    SellStartDate: Timestamp,
    SellEndDate: Option<Timestamp>,
    DiscontinuedDate: Option<Timestamp>,
    ThumbNailPhoto: Option<Bytes>,
    ThumbnailPhotoFileName: Option<string>,
    ProductModelID: Option<int>,
    ProductCategoryID: Option<int>,
    rowguid: string,
    ModifiedDate: Timestamp)

  /** `ProductRead`: what the API returns for a product. */
  datatype ProductRead = ProductRead(
    ProductID: int,
    Name: string,
    ProductNumber: string,
    Color: Option<string>,
    StandardCost: Decimal,
    ListPrice: Decimal,
    Size: Option<string>,
    Weight: Option<Decimal>,
    SellStartDate: Timestamp,
    SellEndDate: Option<Timestamp>,
    DiscontinuedDate: Option<Timestamp>,
    ThumbnailPhotoFileName: Option<string>,
    ProductModelID: Option<int>,
    ProductCategoryID: Option<int>,
    ModifiedDate: Timestamp,
    rowguid: string)

  /** The row a validated payload becomes, with the identity the store
      assigns, the fresh `rowguid` token and the creation time. */
  function FromCreate(v: ProductCreate, id: int, guid: string, now: Timestamp): (p: Product)
    ensures CreateFields(p) == v
    ensures p.ProductID == id && p.rowguid == guid && p.ModifiedDate == now
  {
    Product(id, v.Name, v.ProductNumber, v.Color, v.StandardCost, v.ListPrice, v.Size,
            v.Weight, v.SellStartDate, v.SellEndDate, v.DiscontinuedDate, v.ThumbNailPhoto,
            v.ThumbnailPhotoFileName, v.ProductModelID, v.ProductCategoryID, guid, now)
  }

  /** The payload fields a row keeps, in reverse of `FromCreate`. */
  function CreateFields(p: Product): ProductCreate
  {
    ProductCreate(p.Name, p.ProductNumber, p.Color, p.StandardCost, p.ListPrice, p.Size,
                  p.Weight, p.SellStartDate, p.SellEndDate, p.DiscontinuedDate, p.ThumbNailPhoto,
                  p.ThumbnailPhotoFileName, p.ProductModelID, p.ProductCategoryID)
  }

  /** The read projection of a row. */
  function ToRead(p: Product): (r: ProductRead)
    ensures WithPhoto(r, p.ThumbNailPhoto) == p
  {
    ProductRead(p.ProductID, p.Name, p.ProductNumber, p.Color, p.StandardCost, p.ListPrice,
                p.Size, p.Weight, p.SellStartDate, p.SellEndDate, p.DiscontinuedDate,
                p.ThumbnailPhotoFileName, p.ProductModelID, p.ProductCategoryID,
                p.ModifiedDate, p.rowguid)
  }

  /** The row a projection came from, given the photo it left out. */
  function WithPhoto(r: ProductRead, photo: Option<Bytes>): Product
  {
    Product(r.ProductID, r.Name, r.ProductNumber, r.Color, r.StandardCost, r.ListPrice,
            r.Size, r.Weight, r.SellStartDate, r.SellEndDate, r.DiscontinuedDate, photo,
            r.ThumbnailPhotoFileName, r.ProductModelID, r.ProductCategoryID, r.rowguid,
            r.ModifiedDate)
  }

  /** The read projection keeps every field of a row but the photo bytes: the
      row is recovered from the projection and the photo, and two rows have
      the same projection exactly when they differ at most in their photo. */
  lemma ReadProjection(p: Product, q: Product)
    ensures WithPhoto(ToRead(p), p.ThumbNailPhoto) == p
    ensures ToRead(p) == ToRead(q) <==> p.(ThumbNailPhoto := None) == q.(ThumbNailPhoto := None)
  {
  }

  // ===========================================================================
  // The partial-update payload

  /** A field of `ProductUpdate`: not sent, or sent with a value or an
      explicit null. */
  datatype Patch<+T> = Unset | Set(value: Option<T>)

  /** `ProductUpdate`: every field optional. It declares no validators, types
      `Size` as free text, and has no `ThumbNailPhoto` nor
      `ThumbnailPhotoFileName` field. */
  datatype ProductUpdate = ProductUpdate(
    Name: Patch<string>,
    ProductNumber: Patch<string>,
    Color: Patch<string>,
    StandardCost: Patch<Decimal>,
    ListPrice: Patch<Decimal>,
    Size: Patch<string>,
    Weight: Patch<Decimal>,
    SellStartDate: Patch<Timestamp>,
    SellEndDate: Patch<Timestamp>,
    DiscontinuedDate: Patch<Timestamp>,
    ProductModelID: Patch<int>,
    ProductCategoryID: Patch<int>)

  /** The payload with no field sent. */
  const EmptyUpdate: ProductUpdate :=
    ProductUpdate(Unset, Unset, Unset, Unset, Unset, Unset, Unset, Unset, Unset, Unset, Unset, Unset)

  /** One entry of `model_dump(exclude_unset=True)`: a field name with its value. */
  datatype UpdateItem =
    | NameItem(Option<string>)
    | ProductNumberItem(Option<string>)
    | ColorItem(Option<string>)
    | StandardCostItem(Option<Decimal>)
    | ListPriceItem(Option<Decimal>)
    | SizeItem(Option<string>)
    | WeightItem(Option<Decimal>)
    | SellStartDateItem(Option<Timestamp>)
    | SellEndDateItem(Option<Timestamp>)
    | DiscontinuedDateItem(Option<Timestamp>)
    | ProductModelIDItem(Option<int>)
    | ProductCategoryIDItem(Option<int>)

  const UpdateFieldCount: nat := 12

  /** The position of an entry's field among the fields of `ProductUpdate`. */
  function ItemIndex(item: UpdateItem): nat
  {
    match item
    case NameItem(_) => 0
    case ProductNumberItem(_) => 1
    case ColorItem(_) => 2
    case StandardCostItem(_) => 3
    case ListPriceItem(_) => 4
    case SizeItem(_) => 5
    case WeightItem(_) => 6
    case SellStartDateItem(_) => 7
    case SellEndDateItem(_) => 8
    case DiscontinuedDateItem(_) => 9
    case ProductModelIDItem(_) => 10
    case ProductCategoryIDItem(_) => 11
  }

  /** The entry assigns null to a column declared `nullable=False`. */
  predicate NullsRequired(item: UpdateItem)
  {
    item == NameItem(None) || item == ProductNumberItem(None) || item == StandardCostItem(None)
    || item == ListPriceItem(None) || item == SellStartDateItem(None)
  }

  /** Entries in strictly ascending field position: each field at most once,
      in declaration order. */
  ghost predicate FieldsAscending(items: seq<UpdateItem>)
  {
    forall i, j :: 0 <= i < j < |items| ==> ItemIndex(items[i]) < ItemIndex(items[j])
  }

  /** The entry for the `k`-th field of the payload, if it was sent. */
  function DumpField(u: ProductUpdate, k: nat): (r: seq<UpdateItem>)
    ensures |r| <= 1
    ensures forall i :: 0 <= i < |r| ==> ItemIndex(r[i]) == k
  {
    match k
    case 0 => if u.Name.Set? then [NameItem(u.Name.value)] else []
    case 1 => if u.ProductNumber.Set? then [ProductNumberItem(u.ProductNumber.value)] else []
    case 2 => if u.Color.Set? then [ColorItem(u.Color.value)] else []
    case 3 => if u.StandardCost.Set? then [StandardCostItem(u.StandardCost.value)] else []
    case 4 => if u.ListPrice.Set? then [ListPriceItem(u.ListPrice.value)] else []
    case 5 => if u.Size.Set? then [SizeItem(u.Size.value)] else []
    case 6 => if u.Weight.Set? then [WeightItem(u.Weight.value)] else []
    case 7 => if u.SellStartDate.Set? then [SellStartDateItem(u.SellStartDate.value)] else []
    case 8 => if u.SellEndDate.Set? then [SellEndDateItem(u.SellEndDate.value)] else []
    case 9 => if u.DiscontinuedDate.Set? then [DiscontinuedDateItem(u.DiscontinuedDate.value)] else []
    case 10 => if u.ProductModelID.Set? then [ProductModelIDItem(u.ProductModelID.value)] else []
    case 11 => if u.ProductCategoryID.Set? then [ProductCategoryIDItem(u.ProductCategoryID.value)] else []
    case _ => []
  }

  /** The entries for fields `k` onwards, in declaration order. */
  function DumpFrom(u: ProductUpdate, k: nat): (r: seq<UpdateItem>)
    ensures forall i :: 0 <= i < |r| ==> k <= ItemIndex(r[i]) < UpdateFieldCount
    ensures FieldsAscending(r)
    decreases UpdateFieldCount - k
  {
    if k >= UpdateFieldCount then []
    else
      var head, rest := DumpField(u, k), DumpFrom(u, k + 1);
      ItemsAppend(head, rest, k);
      head + rest
  }

  lemma ItemsAppend(head: seq<UpdateItem>, rest: seq<UpdateItem>, k: nat)
    requires |head| <= 1 && forall i :: 0 <= i < |head| ==> ItemIndex(head[i]) == k
    requires forall i :: 0 <= i < |rest| ==> k + 1 <= ItemIndex(rest[i]) < UpdateFieldCount
    requires FieldsAscending(rest)
    requires k < UpdateFieldCount
    ensures forall i :: 0 <= i < |head + rest| ==> k <= ItemIndex((head + rest)[i]) < UpdateFieldCount
    ensures FieldsAscending(head + rest)
  {
    var r := head + rest;
    forall i | 0 <= i < |r| ensures k <= ItemIndex(r[i]) < UpdateFieldCount {
      if i >= |head| {
        assert r[i] == rest[i - |head|];
      }
    }
    forall i, j | 0 <= i < j < |r| ensures ItemIndex(r[i]) < ItemIndex(r[j]) {
      assert r[j] == rest[j - |head|];
      if i >= |head| {
        assert r[i] == rest[i - |head|];
      }
    }
  }

  /** `model_dump(exclude_unset=True)`: the sent fields in declaration order,
      an explicit null included. */
  function ModelDump(u: ProductUpdate): (r: seq<UpdateItem>)
    ensures FieldsAscending(r)
    ensures forall i :: 0 <= i < |r| ==> ItemIndex(r[i]) < UpdateFieldCount
    ensures r == [] <==> u == EmptyUpdate
  {
    DumpFromEmpty(u, 0);
    assert DropBefore(u, 0) == u;
    DumpFrom(u, 0)
  }

  /** `setattr` of one entry on a row. Assigning null to a column the table
      declares `nullable=False` leaves a row the store refuses to commit:
      that is the `None` outcome. */
  function SetAttr(row: Product, item: UpdateItem): (r: Option<Product>)
    ensures r.None? <==> NullsRequired(item)
    ensures r.Some? ==> Untouched(row, r.value)
  {
    match item
    case NameItem(v) => if v.None? then None else Some(row.(Name := v.value))
    case ProductNumberItem(v) => if v.None? then None else Some(row.(ProductNumber := v.value))
    case ColorItem(v) => Some(row.(Color := v))
    case StandardCostItem(v) => if v.None? then None else Some(row.(StandardCost := v.value))
    case ListPriceItem(v) => if v.None? then None else Some(row.(ListPrice := v.value))
    case SizeItem(v) => Some(row.(Size := v))
    case WeightItem(v) => Some(row.(Weight := v))
    case SellStartDateItem(v) => if v.None? then None else Some(row.(SellStartDate := v.value))
    case SellEndDateItem(v) => Some(row.(SellEndDate := v))
    case DiscontinuedDateItem(v) => Some(row.(DiscontinuedDate := v))
    case ProductModelIDItem(v) => Some(row.(ProductModelID := v))
    case ProductCategoryIDItem(v) => Some(row.(ProductCategoryID := v))
  }

  /** The entries from position `i` on: the `i`-th one, then the rest. */
  lemma ApplyItemsStep(row: Product, items: seq<UpdateItem>, i: nat)
    requires i < |items|
    ensures ApplyItems(row, items[i..]) ==
      match SetAttr(row, items[i])
      case None => None
      case Some(next) => ApplyItems(next, items[i + 1..])
  {
    assert items[i..][0] == items[i];
    assert items[i..][1..] == items[i + 1..];
  }

  /** The entries applied one after the other, as the `setattr` loop does. */
  function ApplyItems(row: Product, items: seq<UpdateItem>): (r: Option<Product>)
    ensures r.None? <==> exists i :: 0 <= i < |items| && NullsRequired(items[i])
    ensures r.Some? ==> Untouched(row, r.value)
    decreases items
  {
    if items == [] then Some(row)
    else match SetAttr(row, items[0])
      case None => None
      case Some(next) =>
        assert forall i :: 1 <= i < |items| ==> items[i] == items[1..][i - 1];
        assert forall i :: 0 <= i < |items[1..]| ==> items[1..][i] == items[i + 1];
        ApplyItems(next, items[1..])
  }

  /** The columns no update entry assigns keep their values. */
  predicate Untouched(row: Product, next: Product)
  {
    && next.ProductID == row.ProductID
    && next.rowguid == row.rowguid
    && next.ModifiedDate == row.ModifiedDate
    && next.ThumbNailPhoto == row.ThumbNailPhoto
    && next.ThumbnailPhotoFileName == row.ThumbnailPhotoFileName
  }

  // ---------------------------------------------------------------------------
  // The merge, stated field by field

  /** The payload sends null for a column declared `nullable=False`. */
  predicate NullsRequiredColumn(u: ProductUpdate)
  {
    u.Name == Set(None) || u.ProductNumber == Set(None) || u.StandardCost == Set(None)
    || u.ListPrice == Set(None) || u.SellStartDate == Set(None)
  }

  /** The new value of a column that cannot hold null. */
  function Required<T>(p: Patch<T>, current: T): T
  {
    if p.Set? && p.value.Some? then p.value.value else current
  }

  /** The new value of a nullable column: the sent value, null included. */
  function Nullable<T>(p: Patch<T>, current: Option<T>): Option<T>
  {
    if p.Set? then p.value else current
  }

  /** The row after an update: every sent field takes the sent value, every
      other field keeps its value; `None` when the row could not be committed
      because a column that cannot hold null was sent null. */
  function Merge(row: Product, u: ProductUpdate): (r: Option<Product>)
    ensures r.None? <==> NullsRequiredColumn(u)
    ensures r.Some? ==> Untouched(row, r.value)
  {
    if NullsRequiredColumn(u) then None
    else Some(row.(
      Name := Required(u.Name, row.Name),
      ProductNumber := Required(u.ProductNumber, row.ProductNumber),
      Color := Nullable(u.Color, row.Color),
      StandardCost := Required(u.StandardCost, row.StandardCost),
      ListPrice := Required(u.ListPrice, row.ListPrice),
      Size := Nullable(u.Size, row.Size),
      Weight := Nullable(u.Weight, row.Weight),
      SellStartDate := Required(u.SellStartDate, row.SellStartDate),
      SellEndDate := Nullable(u.SellEndDate, row.SellEndDate),
      DiscontinuedDate := Nullable(u.DiscontinuedDate, row.DiscontinuedDate),
      ProductModelID := Nullable(u.ProductModelID, row.ProductModelID),
      ProductCategoryID := Nullable(u.ProductCategoryID, row.ProductCategoryID)))
  }

  /** The payload with the fields before the `k`-th one not sent. */
  function DropBefore(u: ProductUpdate, k: nat): ProductUpdate
  {
    ProductUpdate(
      if k <= 0 then u.Name else Unset,
      if k <= 1 then u.ProductNumber else Unset,
      if k <= 2 then u.Color else Unset,
      if k <= 3 then u.StandardCost else Unset,
      if k <= 4 then u.ListPrice else Unset,
      if k <= 5 then u.Size else Unset,
      if k <= 6 then u.Weight else Unset,
      if k <= 7 then u.SellStartDate else Unset,
      if k <= 8 then u.SellEndDate else Unset,
      if k <= 9 then u.DiscontinuedDate else Unset,
      if k <= 10 then u.ProductModelID else Unset,
      if k <= 11 then u.ProductCategoryID else Unset)
  }

  /** Nothing is dumped from the `k`-th field on exactly when none of those
      fields was sent. */
  lemma {:induction false} DumpFromEmpty(u: ProductUpdate, k: nat)
    ensures DumpFrom(u, k) == [] <==> DropBefore(u, k) == EmptyUpdate
    decreases UpdateFieldCount - k
  {
    if k < UpdateFieldCount {
      DumpFromEmpty(u, k + 1);
      DropBeforeStep(u, k);
    }
  }

  /** Dropping one more field keeps the payload empty exactly when that field
      dumps nothing; one field at a time. */
  lemma DropBeforeStep(u: ProductUpdate, k: nat)
    requires k < UpdateFieldCount
    ensures DropBefore(u, k) == EmptyUpdate <==>
      DumpField(u, k) == [] && DropBefore(u, k + 1) == EmptyUpdate
  {
    match k
    case 0 => assert DumpField(u, 0) == [] <==> u.Name == Unset;
    case 1 => assert DumpField(u, 1) == [] <==> u.ProductNumber == Unset;
    case 2 => assert DumpField(u, 2) == [] <==> u.Color == Unset;
    case 3 => assert DumpField(u, 3) == [] <==> u.StandardCost == Unset;
    case 4 => assert DumpField(u, 4) == [] <==> u.ListPrice == Unset;
    case 5 => assert DumpField(u, 5) == [] <==> u.Size == Unset;
    case 6 => assert DumpField(u, 6) == [] <==> u.Weight == Unset;
    case 7 => assert DumpField(u, 7) == [] <==> u.SellStartDate == Unset;
    case 8 => assert DumpField(u, 8) == [] <==> u.SellEndDate == Unset;
    case 9 => assert DumpField(u, 9) == [] <==> u.DiscontinuedDate == Unset;
    case 10 => assert DumpField(u, 10) == [] <==> u.ProductModelID == Unset;
    case 11 => assert DumpField(u, 11) == [] <==> u.ProductCategoryID == Unset;
  }

  lemma {:induction false} ApplyItemsAppend(row: Product, a: seq<UpdateItem>, b: seq<UpdateItem>)
    ensures ApplyItems(row, a + b) ==
      match ApplyItems(row, a)
      case None => None
      case Some(next) => ApplyItems(next, b)
    decreases a
  {
    if a != [] {
      assert (a + b)[0] == a[0] && (a + b)[1..] == a[1..] + b;
      match SetAttr(row, a[0])
      case None =>
      case Some(next) => ApplyItemsAppend(next, a[1..], b);
    } else {
      assert a + b == b;
    }
  }

  /** Applying the `k`-th field and then the later ones is merging the payload
      from the `k`-th field on. */
  lemma MergeStep(row: Product, u: ProductUpdate, k: nat)
    requires k < UpdateFieldCount
    ensures Merge(row, DropBefore(u, k)) ==
      match ApplyItems(row, DumpField(u, k))
      case None => None
      case Some(next) => Merge(next, DropBefore(u, k + 1))
  {
  }

  lemma {:induction false} DumpFromIsMerge(row: Product, u: ProductUpdate, k: nat)
    requires k <= UpdateFieldCount
    ensures ApplyItems(row, DumpFrom(u, k)) == Merge(row, DropBefore(u, k))
    decreases UpdateFieldCount - k
  {
    if k == UpdateFieldCount {
      assert DropBefore(u, k) == EmptyUpdate;
    } else {
      ApplyItemsAppend(row, DumpField(u, k), DumpFrom(u, k + 1));
      MergeStep(row, u, k);
      match ApplyItems(row, DumpField(u, k))
      case None =>
      case Some(next) => DumpFromIsMerge(next, u, k + 1);
    }
  }

  /** The `setattr` loop over `model_dump(exclude_unset=True)` performs the
      field-by-field merge. */
  lemma ModelDumpIsMerge(row: Product, u: ProductUpdate)
    ensures ApplyItems(row, ModelDump(u)) == Merge(row, u)
  {
    DumpFromIsMerge(row, u, 0);
    assert DropBefore(u, 0) == u;
  }

  /** An update that sends nothing commits the row unchanged. */
  lemma MergeEmptyIsNoop(row: Product)
    ensures Merge(row, EmptyUpdate) == Some(row)
  {
  }

  /** Sending the same payload twice gives the row the first one gave. */
  lemma MergeIdempotent(row: Product, u: ProductUpdate)
    requires Merge(row, u).Some?
    ensures Merge(Merge(row, u).value, u) == Merge(row, u)
  {
  }

  /** The payload sending what `w` sends and, elsewhere, what `u` sends. */
  function Then(u: ProductUpdate, w: ProductUpdate): (c: ProductUpdate)
    ensures w == EmptyUpdate ==> c == u
    ensures u == EmptyUpdate ==> c == w
  {
    ProductUpdate(
      if w.Name.Set? then w.Name else u.Name,
      if w.ProductNumber.Set? then w.ProductNumber else u.ProductNumber,
      if w.Color.Set? then w.Color else u.Color,
      if w.StandardCost.Set? then w.StandardCost else u.StandardCost,
      if w.ListPrice.Set? then w.ListPrice else u.ListPrice,
      if w.Size.Set? then w.Size else u.Size,
      if w.Weight.Set? then w.Weight else u.Weight,
      if w.SellStartDate.Set? then w.SellStartDate else u.SellStartDate,
      if w.SellEndDate.Set? then w.SellEndDate else u.SellEndDate,
      if w.DiscontinuedDate.Set? then w.DiscontinuedDate else u.DiscontinuedDate,
      if w.ProductModelID.Set? then w.ProductModelID else u.ProductModelID,
      if w.ProductCategoryID.Set? then w.ProductCategoryID else u.ProductCategoryID)
  }

  /** Two committed updates in a row are the one update that sends the later
      payload's fields over the earlier one's. */
  lemma MergeSequential(row: Product, u: ProductUpdate, w: ProductUpdate)
    requires Merge(row, u).Some?
    requires Merge(Merge(row, u).value, w).Some?
    ensures Merge(row, Then(u, w)) == Merge(Merge(row, u).value, w)
  {
  }

  /** The update path runs none of the create validators: a name the create
      path rejects as too long is stored as sent. */
  lemma MergeSkipsValidation(row: Product)
    ensures exists u :: Merge(row, u).Some? && ValidateName(Merge(row, u).value.Name).Err?
  {
    var long := seq(MaxNameLength + 1, _ => 'x');
    var u := EmptyUpdate.(Name := Set(Some(long)));
    assert Merge(row, u).value.Name == long;
  }
}
