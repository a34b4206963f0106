/**
 * The closed enumeration of product sizes, its string values and the sorted
 * listing of them that the API shows in the description of the `Size` field.
 */
module ProductSizes {
  import opened Wrappers

  /** One member per size; each member's string value is given by `Value`. */
  datatype ProductSize =
    | XS | S | M | L
    | Size38 | Size40 | Size42 | Size44 | Size46 | Size48 | Size50
    | Size52 | Size54 | Size56 | Size58 | Size60 | Size62 | Size70

  /** The members in declaration order, the order in which the enumeration iterates. */
  const AllSizes: seq<ProductSize> :=
    [XS, S, M, L, Size38, Size40, Size42, Size44, Size46, Size48, Size50,
     Size52, Size54, Size56, Size58, Size60, Size62, Size70]

  /** Where a member stands in the enumeration's iteration order. */
  function Position(s: ProductSize): (i: nat)
    ensures i < |AllSizes| && AllSizes[i] == s
  {
    match s
    case XS => 0
    case S => 1
    case M => 2
    case L => 3
    case Size38 => 4
    case Size40 => 5
    case Size42 => 6
    case Size44 => 7
    case Size46 => 8
    case Size48 => 9
    case Size50 => 10
    case Size52 => 11
    case Size54 => 12
    case Size56 => 13
    case Size58 => 14
    case Size60 => 15
    case Size62 => 16
    case Size70 => 17
  }

  /** The string value of a size; `str(size)` returns the same string. */
  function Value(s: ProductSize): (r: string)
    ensures r in LetterValues || (|r| == 2 && '0' <= r[0] <= '9' && '0' <= r[1] <= '9')
  {
    match s
    case XS => "XS"
    case S => "S"
    case M => "M"
    case L => "L"
    case Size38 => "38"
    case Size40 => "40"
    case Size42 => "42"
    case Size44 => "44"
    case Size46 => "46"
    case Size48 => "48"
    case Size50 => "50"
    case Size52 => "52"
    case Size54 => "54"
    case Size56 => "56"
    case Size58 => "58"
    case Size60 => "60"
    case Size62 => "62"
    case Size70 => "70"
  }

  /** The member whose value is `t`, if any: how a string is turned into a size. */
  function FromValue(t: string): (r: Option<ProductSize>)
    ensures r.Some? ==> Value(r.value) == t
    ensures r.None? ==> forall s :: Value(s) != t
  {
    if t == "XS" then Some(XS)
    else if t == "S" then Some(S)
    else if t == "M" then Some(M)
    else if t == "L" then Some(L)
    else if t == "38" then Some(Size38)
    else if t == "40" then Some(Size40)
    else if t == "42" then Some(Size42)
    else if t == "44" then Some(Size44)
    else if t == "46" then Some(Size46)
    else if t == "48" then Some(Size48)
    else if t == "50" then Some(Size50)
    else if t == "52" then Some(Size52)
    else if t == "54" then Some(Size54)
    else if t == "56" then Some(Size56)
    else if t == "58" then Some(Size58)
    else if t == "60" then Some(Size60)
    else if t == "62" then Some(Size62)
    else if t == "70" then Some(Size70)
    else None
  }

  /** Reading back the value of a size gives that size. */
  lemma ValueRoundTrip(s: ProductSize)
    ensures FromValue(Value(s)) == Some(s)
  {
  }

  // ---------------------------------------------------------------------------
  // Python's ordering of strings: lexicographic by code point

  predicate StrLess(a: string, b: string)
  {
    if |a| == 0 then |b| > 0
    else if |b| == 0 then false
    else if a[0] != b[0] then a[0] < b[0]
    else StrLess(a[1..], b[1..])
  }

  predicate StrLessEq(a: string, b: string)
  {
    a == b || StrLess(a, b)
  }

  lemma {:induction false} StrLessIrreflexive(a: string)
    ensures !StrLess(a, a)
  {
    if |a| > 0 {
      StrLessIrreflexive(a[1..]);
    }
  }

  lemma {:induction false} StrLessTransitive(a: string, b: string, c: string)
    requires StrLess(a, b) && StrLess(b, c)
    ensures StrLess(a, c)
  {
    if |a| > 0 && a[0] == b[0] && b[0] == c[0] {
      StrLessTransitive(a[1..], b[1..], c[1..]);
    }
  }

  lemma {:induction false} StrLessTotal(a: string, b: string)
    requires a != b
    ensures StrLess(a, b) || StrLess(b, a)
  {
    if |a| > 0 && |b| > 0 && a[0] == b[0] {
      assert a == [a[0]] + a[1..] && b == [b[0]] + b[1..];
      StrLessTotal(a[1..], b[1..]);
    }
  }

  lemma StrLessAsymmetric(a: string, b: string)
    requires StrLess(a, b)
    ensures !StrLess(b, a)
  {
    if StrLess(b, a) {
      StrLessTransitive(a, b, a);
      StrLessIrreflexive(a);
    }
  }

  lemma StrLessEqTransitive(a: string, b: string, c: string)
    requires StrLessEq(a, b) && StrLessEq(b, c)
    ensures StrLessEq(a, c)
  {
    if a != b && b != c {
      StrLessTransitive(a, b, c);
    }
  }

  // ---------------------------------------------------------------------------
  // Sorting, as `sorted` does for a sequence of strings

  ghost predicate Sorted(s: seq<string>)
  {
    forall i, j :: 0 <= i < j < |s| ==> StrLessEq(s[i], s[j])
  }

  function Insert(x: string, s: seq<string>): (r: seq<string>)
    requires Sorted(s)
    ensures Sorted(r)
    ensures multiset(r) == multiset(s) + multiset{x}
  {
    if s == [] then [x]
    else if StrLessEq(x, s[0]) then
      assert forall j :: 0 < j < |s| ==> StrLessEq(x, s[j]) by {
        forall j | 0 < j < |s| ensures StrLessEq(x, s[j]) {
          StrLessEqTransitive(x, s[0], s[j]);
        }
      }
      [x] + s
    else
      var r' := Insert(x, s[1..]);
      assert StrLess(s[0], x) by {
        StrLessTotal(x, s[0]);
      }
      assert forall k :: 0 <= k < |r'| ==> StrLessEq(s[0], r'[k]) by {
        forall k | 0 <= k < |r'| ensures StrLessEq(s[0], r'[k]) {
          assert r'[k] in multiset(r');
          assert r'[k] == x || r'[k] in multiset(s[1..]);
        }
      }
      assert s == [s[0]] + s[1..];
      [s[0]] + r'
  }

  /** Insertion sort: the strings of `s` in ascending order. */
  function SortStrings(s: seq<string>): (r: seq<string>)
    ensures Sorted(r)
    ensures multiset(r) == multiset(s)
  {
    if s == [] then []
    else
      assert s == [s[0]] + s[1..];
      Insert(s[0], SortStrings(s[1..]))
  }

  /** Two ascending sequences holding the same strings are the same sequence. */
  lemma {:induction false} SortedUnique(a: seq<string>, b: seq<string>)
    requires Sorted(a) && Sorted(b)
    requires multiset(a) == multiset(b)
    ensures a == b
  {
    if a != [] {
      SortedHeadsEqual(a, b);
      SortedTail(a);
      SortedTail(b);
      MultisetTail(a, b);
      SortedUnique(a[1..], b[1..]);
      assert a == [a[0]] + a[1..] && b == [b[0]] + b[1..];
    } else {
      assert |multiset(b)| == 0;
    }
  }

  lemma SortedHeadsEqual(a: seq<string>, b: seq<string>)
    requires Sorted(a) && Sorted(b)
    requires multiset(a) == multiset(b)
    requires a != []
    ensures b != [] && a[0] == b[0]
  {
    assert a[0] in multiset(b);
    var i :| 0 <= i < |b| && b[i] == a[0];
    assert b[0] in multiset(a);
    var j :| 0 <= j < |a| && a[j] == b[0];
    assert StrLessEq(b[0], a[0]) && StrLessEq(a[0], b[0]);
    if a[0] != b[0] {
      StrLessAsymmetric(a[0], b[0]);
    }
  }

  lemma SortedTail(a: seq<string>)
    requires Sorted(a) && a != []
    ensures Sorted(a[1..])
  {
    forall i, j | 0 <= i < j < |a[1..]| ensures StrLessEq(a[1..][i], a[1..][j]) {
      assert a[1..][i] == a[i + 1] && a[1..][j] == a[j + 1];
    }
  }

  lemma MultisetTail(a: seq<string>, b: seq<string>)
    requires multiset(a) == multiset(b)
    requires a != [] && b != [] && a[0] == b[0]
    ensures multiset(a[1..]) == multiset(b[1..])
  {
    assert a == [a[0]] + a[1..] && b == [b[0]] + b[1..];
    assert multiset(a[1..]) == multiset(a) - multiset{a[0]};
    assert multiset(b[1..]) == multiset(b) - multiset{b[0]};
  }

  /** A sequence whose neighbours ascend is ascending throughout. */
  lemma {:induction false} AdjacentSorted(s: seq<string>)
    requires forall i :: 0 <= i < |s| - 1 ==> StrLess(s[i], s[i + 1])
    ensures forall i, j :: 0 <= i < j < |s| ==> StrLess(s[i], s[j])
  {
    if |s| > 1 {
      AdjacentSorted(s[1..]);
      forall j | 1 < j < |s| ensures StrLess(s[0], s[j]) {
        assert StrLess(s[1], s[j]) by {
          assert s[1..][0] == s[1] && s[1..][j - 1] == s[j];
        }
        StrLessTransitive(s[0], s[1], s[j]);
      }
      forall i, j | 0 < i < j < |s| ensures StrLess(s[i], s[j]) {
        assert s[1..][i - 1] == s[i] && s[1..][j - 1] == s[j];
      }
    }
  }

  /** `", ".join(parts)`. */
  function Join(sep: string, parts: seq<string>): string
  {
    if |parts| == 0 then ""
    else if |parts| == 1 then parts[0]
    else parts[0] + sep + Join(sep, parts[1..])
  }

  // ---------------------------------------------------------------------------
  // The listing of valid sizes

  /** The values of the sizes in the enumeration's own order: one entry per
      member, every member's value among them. */
  function Values(): (vs: seq<string>)
    ensures |vs| == 18
    ensures forall s: ProductSize :: Value(s) in vs
  {
    var vs := seq(|AllSizes|, i requires 0 <= i < |AllSizes| => Value(AllSizes[i]));
    assert forall s: ProductSize :: Value(s) in vs by {
      forall s: ProductSize ensures Value(s) in vs {
        assert vs[Position(s)] == Value(s);
      }
    }
    vs
  }

  /** `ProductSize.get_valid_sizes()`: the values, sorted, joined by ", ";
      that is, the listing of the sizes joined by ", ". */
  function GetValidSizes(): (r: string)
    ensures r == Join(", ", SortedListing)
  {
    SortedValuesAreListing();
    Join(", ", SortStrings(Values()))
  }

  const SortedListing: seq<string> :=
    ["38", "40", "42", "44", "46", "48", "50", "52", "54", "56", "58", "60", "62", "70",
     "L", "M", "S", "XS"]

  /** The letter sizes in declaration order, and the numeric sizes. */
  const LetterValues: seq<string> := ["XS", "S", "M", "L"]
  const NumericValues: seq<string> :=
    ["38", "40", "42", "44", "46", "48", "50", "52", "54", "56", "58", "60", "62", "70"]

  lemma ValuesInOrder()
    ensures Values() == LetterValues + NumericValues
  {
    assert Values() == ["XS", "S", "M", "L", "38", "40", "42", "44", "46", "48", "50",
                        "52", "54", "56", "58", "60", "62", "70"];
  }

  lemma ListingSplit()
    ensures SortedListing == NumericValues + ["L", "M", "S", "XS"]
  {
  }

  lemma ListingAscending()
    ensures forall i :: 0 <= i < |SortedListing| - 1 ==> StrLess(SortedListing[i], SortedListing[i + 1])
  {
  }

  lemma LettersPermuted()
    ensures multiset(LetterValues) == multiset(["L", "M", "S", "XS"])
  {
  }

  lemma PermutedBlocks(a: seq<string>, b: seq<string>, c: seq<string>)
    requires multiset(a) == multiset(c)
    ensures multiset(a + b) == multiset(b + c)
  {
  }

  lemma ListingIsPermutation()
    ensures multiset(Values()) == multiset(SortedListing)
  {
    ValuesInOrder();
    ListingSplit();
    LettersPermuted();
    PermutedBlocks(LetterValues, NumericValues, ["L", "M", "S", "XS"]);
  }

  lemma ListingStrictlyAscending()
    ensures forall i, j :: 0 <= i < j < |SortedListing| ==> StrLess(SortedListing[i], SortedListing[j])
  {
    ListingAscending();
    AdjacentSorted(SortedListing);
  }

  lemma ListingCoversSizes()
    ensures forall s :: Value(s) in SortedListing
  {
  }

  /** Sorting the values gives the listing. */
  lemma SortedValuesAreListing()
    ensures SortStrings(Values()) == SortedListing
  {
    var sorted := SortStrings(Values());
    ListingStrictlyAscending();
    ListingIsPermutation();
    assert Sorted(SortedListing);
    SortedUnique(sorted, SortedListing);
  }

  /** The sorted values are the eighteen sizes, each exactly once, strictly
      ascending: first the numeric sizes, then the letter sizes. */
  lemma SortedValuesListing()
    ensures SortStrings(Values()) == SortedListing
    ensures |SortedListing| == |AllSizes| == 18
    ensures forall i, j :: 0 <= i < j < |SortedListing| ==> StrLess(SortedListing[i], SortedListing[j])
    ensures forall s :: Value(s) in SortedListing
  {
    SortedValuesAreListing();
    ListingStrictlyAscending();
    ListingCoversSizes();
  }
}
