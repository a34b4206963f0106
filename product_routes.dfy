/**
 * The product endpoints over a table held in memory: listing with an offset
 * and a limit, reading, creating, updating and deleting one product.
 *
 * The database session is the class `ProductTable`: a map from `ProductID`
 * to the stored row, the store's iteration order, and the next identity value
 * the store hands out. Each endpoint is a method that reads or changes that
 * state as the route's one unit of work does.
 */
module ProductRoutes {
  import opened Wrappers
  import opened Decimals
  import opened ProductModels

  // ===========================================================================
  // Responses

  /** Why a request ended in a server error: an exception no route catches. */
  datatype ServerFault =
    | QuantizeRaised      // `InvalidOperation` from the weight validator
    | NotNullViolation    // the commit refused a null in a `nullable=False` column

  /** What an endpoint answers. */
  datatype Outcome<+T> =
    | Success(value: T)
    | NotFound(detail: string)
    | ValidationFailed(errors: seq<FieldError>)
    | InternalError(fault: ServerFault)

  /** The status codes the routes declare for success. */
  const StatusOk: nat := 200
  const StatusCreated: nat := 201
  const StatusNoContent: nat := 204

  /** The HTTP status of an outcome, given the status the route declares for
      success: a success status below 300, or an error status of at least 400. */
  function StatusCode<T>(o: Outcome<T>, success: nat): (code: nat)
    requires success < 300
    ensures o.Success? <==> code < 300
    ensures o.Success? ==> code == success
    ensures !o.Success? ==> code >= 400
  {
    match o
    case Success(_) => success
    case NotFound(_) => 404
    case ValidationFailed(_) => 422
    case InternalError(_) => 500
  }

  // ---------------------------------------------------------------------------
  // The not-found detail, `f"Product with ID {product_id} not found"`

  function DigitChar(d: nat): (c: char)
    requires d < 10
    ensures '0' <= c <= '9'
  {
    ('0' as int + d) as char
  }

  function DigitValue(c: char): nat
  {
    if '0' <= c <= '9' then (c as int - '0' as int) as nat else 0
  }

  /** Decimal digits with no leading zero, except the single digit `0`. */
  predicate CanonicalDigits(d: string)
  {
    |d| >= 1 && (forall i :: 0 <= i < |d| ==> '0' <= d[i] <= '9') && (d[0] == '0' ==> |d| == 1)
  }

  /** The text `str` gives an `int`: canonical digits, after a minus sign
      exactly when the number is negative (so never `-0`). */
  predicate CanonicalInt(s: string)
  {
    if |s| > 0 && s[0] == '-' then CanonicalDigits(s[1..]) && s[1..] != "0"
    else CanonicalDigits(s)
  }

  /** The decimal digits of `n`, as `str` writes a non-negative `int`. */
  function NatToString(n: nat): (s: string)
    ensures |s| >= 1
    ensures forall i :: 0 <= i < |s| ==> '0' <= s[i] <= '9'
    ensures s[0] == '0' <==> n == 0
    ensures CanonicalDigits(s)
    decreases n
  {
    if n < 10 then [DigitChar(n)] else NatToString(n / 10) + [DigitChar(n % 10)]
  }

  function ParseNat(s: string): nat
    decreases |s|
  {
    if s == [] then 0 else 10 * ParseNat(s[..|s| - 1]) + DigitValue(s[|s| - 1])
  }

  function ParseInt(s: string): int
  {
    if |s| > 0 && s[0] == '-' then -(ParseNat(s[1..]) as int) else ParseNat(s)
  }

  lemma {:induction false} NatToStringRoundTrip(n: nat)
    ensures ParseNat(NatToString(n)) == n
    decreases n
  {
    var s := NatToString(n);
    if n >= 10 {
      assert s[..|s| - 1] == NatToString(n / 10);
      NatToStringRoundTrip(n / 10);
    }
  }

  /** Canonical digits are the digits of the number they spell: no other
      text spells the same number. */
  lemma {:induction false} CanonicalDigitsUnique(d: string)
    requires CanonicalDigits(d)
    ensures NatToString(ParseNat(d)) == d
    decreases |d|
  {
    var n := ParseNat(d);
    var last := d[|d| - 1];
    if |d| == 1 {
      assert d[..0] == [] && ParseNat([]) == 0;
      assert '0' <= last <= '9';
      assert n == DigitValue(last) < 10;
      assert DigitChar(DigitValue(last)) == last;
    } else {
      var p := d[..|d| - 1];
      assert p[0] == d[0] != '0';
      assert forall i :: 0 <= i < |p| ==> p[i] == d[i];
      CanonicalDigitsUnique(p);
      var m := ParseNat(p);
      assert n == 10 * m + DigitValue(last) && DigitValue(last) < 10;
      assert n / 10 == m && n % 10 == DigitValue(last);
      assert DigitChar(DigitValue(last)) == last;
      assert d == p + [last];
    }
  }

  /** `str` of an `int`: a minus sign exactly for a negative number, then
      decimal digits with no leading zero; the text parses back to the
      number. */
  function IntToString(n: int): (r: string)
    ensures (n < 0) <==> (|r| > 0 && r[0] == '-')
    ensures forall i :: (if n < 0 then 1 else 0) <= i < |r| ==> '0' <= r[i] <= '9'
    ensures |r| > (if n < 0 then 1 else 0) && (r[if n < 0 then 1 else 0] == '0' ==> n == 0)
    ensures CanonicalInt(r)
    ensures ParseInt(r) == n
  {
    if n < 0 then
      var digits := NatToString(-n);
      NatToStringRoundTrip(-n);
      assert ("-" + digits)[1..] == digits;
      "-" + digits
    else
      NatToStringRoundTrip(n);
      NatToString(n)
  }

  /** The canonical text of a number is the only one: any canonical text is
      `str` of the number it spells. */
  lemma IntToStringUnique(s: string)
    requires CanonicalInt(s)
    ensures IntToString(ParseInt(s)) == s
  {
    if |s| > 0 && s[0] == '-' {
      var d := s[1..];
      CanonicalDigitsUnique(d);
      assert s == "-" + d;
    } else {
      CanonicalDigitsUnique(s);
    }
  }

  /** The detail of a not-found answer: the id can be read back from it. */
  function NotFoundDetail(id: int): (r: string)
    ensures |r| > 26 && r[..16] == "Product with ID " && r[|r| - 10..] == " not found"
    ensures r[16..|r| - 10] == IntToString(id)
    ensures ParseInt(r[16..|r| - 10]) == id
  {
    var text := IntToString(id);
    var r := "Product with ID " + text + " not found";
    assert r[16..|r| - 10] == text;
    r
  }

  /** Different ids give different not-found details. */
  lemma NotFoundDetailInjective(a: int, b: int)
    requires NotFoundDetail(a) == NotFoundDetail(b)
    ensures a == b
  {
  }

  // ---------------------------------------------------------------------------
  // Offset and limit

  function Min(a: int, b: int): int
  {
    if a < b then a else b
  }

  /** `OFFSET skip LIMIT limit` on a sequence of rows: at most `limit` rows,
      the contiguous run starting at position `skip`. */
  function Page<T>(s: seq<T>, skip: nat, limit: nat): (p: seq<T>)
    ensures |p| == Min(limit, |s| - Min(skip, |s|))
    ensures forall k :: 0 <= k < |p| ==> p[k] == s[skip + k]
  {
    var start := Min(skip, |s|);
    s[start..Min(start + limit, |s|)]
  }

  /** Consecutive pages put together are the page spanning both. */
  lemma PagesTile<T>(s: seq<T>, skip: nat, a: nat, b: nat)
    ensures Page(s, skip, a) + Page(s, skip + a, b) == Page(s, skip, a + b)
  {
    var p, q, pq := Page(s, skip, a), Page(s, skip + a, b), Page(s, skip, a + b);
    assert |p + q| == |pq|;
    forall k | 0 <= k < |pq| ensures (p + q)[k] == pq[k] {
      if k >= |p| {
        assert (p + q)[k] == q[k - |p|];
      }
    }
  }

  /** The read projections of the rows, in the given order. */
  function InOrder(rows: map<int, Product>, order: seq<int>): (r: seq<ProductRead>)
    requires forall i :: 0 <= i < |order| ==> order[i] in rows
    ensures |r| == |order|
    ensures forall k :: 0 <= k < |r| ==> r[k] == ToRead(rows[order[k]])
  {
    if order == [] then [] else [ToRead(rows[order[0]])] + InOrder(rows, order[1..])
  }

  /** The ids ascend strictly along the sequence. */
  ghost predicate Increasing(s: seq<int>)
  {
    forall i, j :: 0 <= i < j < |s| ==> s[i] < s[j]
  }

  /** The sequence without `x`. */
  function Without(s: seq<int>, x: int): (r: seq<int>)
    ensures forall y :: y in r <==> y in s && y != x
    ensures Increasing(s) ==> Increasing(r)
  {
    if s == [] then []
    else if s[0] == x then Without(s[1..], x)
    else
      var rest := Without(s[1..], x);
      assert Increasing(s) ==> Increasing([s[0]] + rest) by {
        if Increasing(s) {
          assert Increasing(s[1..]);
          forall y | y in rest ensures s[0] < y {
            var j :| 0 <= j < |s[1..]| && s[1..][j] == y;
            assert s[j + 1] == y;
          }
          forall i, j | 0 <= i < j < |[s[0]] + rest|
            ensures ([s[0]] + rest)[i] < ([s[0]] + rest)[j]
          {
            if i == 0 {
              assert ([s[0]] + rest)[j] == rest[j - 1];
              assert rest[j - 1] in rest;
            }
          }
        }
      }
      [s[0]] + rest
  }

  // ===========================================================================
  // The update loop

  /** The `setattr` loop of the update route: each entry is assigned to the
      fetched row in turn. Once a column that cannot hold null has been
      given null the commit is refused whatever follows, so the remaining
      entries are not applied. */
  method SetEntries(row: Product, items: seq<UpdateItem>) returns (merged: Option<Product>)
    ensures merged == ApplyItems(row, items)
  {
    var current := Some(row);
    var i := 0;
    while i < |items|
      invariant 0 <= i <= |items|
      invariant current.None? ==> ApplyItems(row, items) == None
      invariant current.Some? ==> ApplyItems(row, items) == ApplyItems(current.value, items[i..])
    {
      if current.Some? {
        ApplyItemsStep(current.value, items, i);
        current := SetAttr(current.value, items[i]);
      }
      i := i + 1;
    }
    assert items[i..] == [];
    merged := current;
  }

  /** The update route's merge: the entries of
      `model_dump(exclude_unset=True)` set on the row one by one. */
  method ApplyUpdate(row: Product, u: ProductUpdate) returns (merged: Option<Product>)
    ensures merged == Merge(row, u)
  {
    var items := ModelDump(u);
    merged := SetEntries(row, items);
    ModelDumpIsMerge(row, u);
  }

  // ===========================================================================
  // The table

  class ProductTable {
    /** The stored rows by `ProductID`. */
    var rows: map<int, Product>
    /** The ids in the store's iteration order. */
    var order: seq<int>
    /** The identity value the store assigns to the next inserted row. */
    var nextId: int

    ghost predicate Valid()
      reads this
    {
      && Increasing(order)
      && (forall i :: 0 <= i < |order| ==> order[i] in rows && order[i] < nextId)
      && (forall id :: id in rows ==> id in order)
      && (forall id :: id in rows ==> rows[id].ProductID == id)
      && (forall a, b :: a in rows && b in rows && rows[a].rowguid == rows[b].rowguid ==> a == b)
    }

    /** No stored row carries the token. */
    ghost predicate FreshGuid(guid: string)
      reads this
    {
      forall id :: id in rows ==> rows[id].rowguid != guid
    }

    /** An empty table whose identity starts at 1. */
    constructor ()
      ensures Valid()
      ensures rows == map[] && order == [] && nextId == 1
    {
      rows, order, nextId := map[], [], 1;
    }

    /** `list_products`: the page of the rows, in the store's order, starting
        at `skip` and holding at most `limit` rows; no ordering is imposed
        beyond the store's own, which is ascending `ProductID`. */
    method ListProducts(skip: nat := 0, limit: nat := 100) returns (r: seq<ProductRead>)
      requires Valid()
      ensures r == Page(InOrder(rows, order), skip, limit)
      ensures |r| <= limit
      ensures forall i, j :: 0 <= i < j < |r| ==> r[i].ProductID < r[j].ProductID
    {
      r := Page(InOrder(rows, order), skip, limit);
      forall i, j | 0 <= i < j < |r| ensures r[i].ProductID < r[j].ProductID {
        assert r[i] == ToRead(rows[order[skip + i]]) && r[j] == ToRead(rows[order[skip + j]]);
      }
    }

    /** `get_product`: the stored row's projection, or not-found. */
    method GetProduct(id: int) returns (r: Outcome<ProductRead>)
      ensures StatusCode(r, StatusOk) == if id in rows then 200 else 404
      ensures id in rows ==> r == Success(ToRead(rows[id]))
      ensures id !in rows ==> r == NotFound(NotFoundDetail(id))
    {
      if id !in rows {
        return NotFound(NotFoundDetail(id));
      }
      r := Success(ToRead(rows[id]));
    }

    /** `create_product`: a payload that passes validation is validated again
        by `Product.model_validate`, given the fresh `rowguid` token and the
        creation time, and inserted with the next identity value; a payload
        that fails leaves the table as it was. */
    method CreateProduct(body: ProductCreate, guid: string, now: Timestamp) returns (r: Outcome<ProductRead>)
      requires Valid()
      requires FreshGuid(guid)
      modifies this
      ensures Valid()
      ensures ValidateProductCreate(body).Valid? ==>
        var p := FromCreate(ValidateProductCreate(body).product, old(nextId), guid, now);
        && r == Success(ToRead(p))
        && old(nextId) !in old(rows)
        && rows == old(rows)[old(nextId) := p]
        && order == old(order) + [old(nextId)]
        && nextId == old(nextId) + 1
      ensures ValidateProductCreate(body).Valid? ==>
        && |rows| == |old(rows)| + 1
        && forall id :: id in old(rows) ==> id in rows && rows[id] == old(rows)[id]
      ensures ValidateProductCreate(body).Invalid? ==>
        r == ValidationFailed(ValidateProductCreate(body).errors)
      ensures ValidateProductCreate(body).Raised? ==> r == InternalError(QuantizeRaised)
      ensures StatusCode(r, StatusCreated) ==
        match ValidateProductCreate(body)
        case Valid(_) => 201
        case Invalid(_) => 422
        case Raised(_) => 500
      ensures !ValidateProductCreate(body).Valid? ==>
        rows == old(rows) && order == old(order) && nextId == old(nextId)
    {
      match ValidateProductCreate(body)
      case Invalid(errors) =>
        r := ValidationFailed(errors);
      case Raised(_) =>
        r := InternalError(QuantizeRaised);
      case Valid(v) =>
        ValidateProductCreateIdempotent(body);
        var revalidated := ValidateProductCreate(v).product;
        var id := nextId;
        var p := FromCreate(revalidated, id, guid, now);
        assert id !in rows;
        rows := rows[id := p];
        order := order + [id];
        nextId := nextId + 1;
        r := Success(ToRead(p));
    }

    /** `update_product`: not-found for an absent id; otherwise the payload
        is merged into the row, without any validation and without touching
        `ModifiedDate`, and committed. */
    method UpdateProduct(id: int, u: ProductUpdate) returns (r: Outcome<ProductRead>)
      requires Valid()
      modifies this
      ensures Valid()
      ensures order == old(order) && nextId == old(nextId)
      ensures StatusCode(r, StatusOk) ==
        if id !in old(rows) then 404 else if Merge(old(rows)[id], u).None? then 500 else 200
      ensures id !in old(rows) ==> r == NotFound(NotFoundDetail(id)) && rows == old(rows)
      ensures id in old(rows) && Merge(old(rows)[id], u).None? ==>
        r == InternalError(NotNullViolation) && rows == old(rows)
      ensures id in old(rows) && Merge(old(rows)[id], u).Some? ==>
        var p := Merge(old(rows)[id], u).value;
        r == Success(ToRead(p)) && rows == old(rows)[id := p]
    {
      if id !in rows {
        return NotFound(NotFoundDetail(id));
      }
      var merged := ApplyUpdate(rows[id], u);
      match merged
      case None =>
        r := InternalError(NotNullViolation);
      case Some(p) =>
        rows := rows[id := p];
        r := Success(ToRead(p));
    }

    /** `delete_product`: not-found for an absent id; otherwise that row, and
        only that row, is removed. */
    method DeleteProduct(id: int) returns (r: Outcome<()>)
      requires Valid()
      modifies this
      ensures Valid()
      ensures nextId == old(nextId)
      ensures StatusCode(r, StatusNoContent) == if id in old(rows) then 204 else 404
      ensures id !in old(rows) ==>
        r == NotFound(NotFoundDetail(id)) && rows == old(rows) && order == old(order)
      ensures id in old(rows) ==>
        && r == Success(())
        && rows == old(rows) - {id}
        && order == Without(old(order), id)
      ensures forall k :: k in old(rows) && k != id ==> k in rows && rows[k] == old(rows)[k]
    {
      if id !in rows {
        return NotFound(NotFoundDetail(id));
      }
      forall y | y in order ensures y in rows && y < nextId {
        var j :| 0 <= j < |order| && order[j] == y;
      }
      rows := rows - {id};
      order := Without(order, id);
      forall i | 0 <= i < |order| ensures order[i] in rows {
        assert order[i] in order;
      }
      r := Success(());
    }
  }

  /** A worked example, not part of the service: the answers a client sees
      for one create, read, empty update, listing and two deletes. */
  method ExampleSession(body: ProductCreate, now: Timestamp)
    requires ValidateProductCreate(body).Valid?
  {
    var table := new ProductTable();
    var created := table.CreateProduct(body, "guid-1", now);
    assert created.Success? && created.value.ProductID == 1 && created.value.rowguid == "guid-1";
    var fetched := table.GetProduct(1);
    assert fetched == created;
    var same := table.UpdateProduct(1, EmptyUpdate);
    assert same == created;
    var listed := table.ListProducts();
    assert listed == [created.value];
    var deleted := table.DeleteProduct(1);
    assert deleted.Success?;
    var gone := table.GetProduct(1);
    assert gone == NotFound(NotFoundDetail(1));
    var again := table.DeleteProduct(1);
    assert again == NotFound(NotFoundDetail(1));
  }
}
