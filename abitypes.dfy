/**
 * ABI type strings: the K sort a type is given (`_evm_base_sort`,
 * `_evm_base_sort_int`) and the range predicate that guards an argument of
 * that type in the generated calldata rule (`_range_predicate`,
 * `_range_predicate_uint`).
 */
module AbiTypes {
  import opened Wrappers
  import opened Errors
  import opened PyStr

  /** The K sorts `Int`, `Bytes`, `String` and the catch-all `K`. */
  datatype Sort = IntSort | BytesSort | StringSort | GenericSort

  /**
   * Which KEVM range constructor guards a term; the numeric meaning of each
   * constructor lives in KEVM and is not modelled.
   */
  datatype RangePredicate =
    | RangeUint(width: int)         // range_uint(width, term)
    | RangeSint(width: int)         // range_sint(width, term)
    | RangeAddress                  // range_address(term)
    | RangeBool                     // range_bool(term)
    | RangeBytes(size: int)         // range_bytes(size, term)
    | RangeUintOfSize(width: int)   // range_uint(width, size_bytes(term))
    | TrueGuard                     // the constant TRUE

  /** Python's `label.endswith(']')`. */
  predicate IsArrayLabel(t: string)
  {
    t != [] && t[|t| - 1] == ']'
  }

  predicate ValidUintWidth(w: int)
  {
    0 < w <= 256 && w % 8 == 0
  }

  /**
   * What `_evm_base_sort_int` returns or raises: `address` and `bool`, `bytes4`
   * and `bytes32`, `int256` and `uintN` for the valid widths are integers;
   * any other width of a `bytes`, `int` or `uint` label that is not an array
   * is an error; everything else is not an integer.
   */
  function IsIntType(t: string): Result<bool, Error>
  {
    if t == "address" || t == "bool" then Ok(true)
    else if "bytes" <= t && |t| > 5 && !IsArrayLabel(t) then
      var w :- ToInt(t[5..], 10);
      if w == 4 || w == 32 then Ok(true) else Err(UnsupportedBaseSort(t))
    else if "int" <= t && !IsArrayLabel(t) then
      var w :- ToInt(t[3..], 10);
      if w == 256 then Ok(true) else Err(UnsupportedBaseSort(t))
    else if "uint" <= t && !IsArrayLabel(t) then
      var w :- ToInt(t[4..], 10);
      if ValidUintWidth(w) then Ok(true) else Err(UnsupportedBaseSort(t))
    else Ok(false)
  }

  /**
   * `_evm_base_sort_int` as the source writes it: four independent checks
   * that each may set the `success` flag or raise.
   */
  method CheckIntType(t: string) returns (r: Result<bool, Error>)
    ensures r == IsIntType(t)
  {
    var success := false;
    if t == "address" || t == "bool" {
      success := true;
    }
    if "bytes" <= t && |t| > 5 && !IsArrayLabel(t) {
      assert t[0] == 'b';
      var width := ToInt(t[5..], 10);
      if width.Err? {
        return Err(width.error);
      }
      if !(width.value == 4 || width.value == 32) {
        return Err(UnsupportedBaseSort(t));
      }
      success := true;
    }
    if "int" <= t && !IsArrayLabel(t) {
      assert t[0] == 'i';
      var width := ToInt(t[3..], 10);
      if width.Err? {
        return Err(width.error);
      }
      if width.value != 256 {
        return Err(UnsupportedBaseSort(t));
      }
      success := true;
    }
    if "uint" <= t && !IsArrayLabel(t) {
      assert t[0] == 'u';
      var width := ToInt(t[4..], 10);
      if width.Err? {
        return Err(width.error);
      }
      if !ValidUintWidth(width.value) {
        return Err(UnsupportedBaseSort(t));
      }
      success := true;
    }
    return Ok(success);
  }

  /** `_evm_base_sort`: integers get `Int`, `bytes` gets `Bytes`, `string` gets `String`, the rest `K`. */
  function BaseSort(t: string): (r: Result<Sort, Error>)
    ensures r.Err? <==> IsIntType(t).Err?
    ensures r == Ok(IntSort) <==> IsIntType(t) == Ok(true)
    ensures t == "bytes" ==> r == Ok(BytesSort)
    ensures t == "string" ==> r == Ok(StringSort)
    ensures r == Ok(GenericSort) <==> IsIntType(t) == Ok(false) && t != "bytes" && t != "string"
  {
    assert t == "bytes" || t == "string" ==> !("int" <= t) && !("uint" <= t) && t[0] != 'a' && t[0] != 'i';
    var isInt :- IsIntType(t);
    if isInt then Ok(IntSort)
    else if t == "bytes" then Ok(BytesSort)
    else if t == "string" then Ok(StringSort)
    else Ok(GenericSort)
  }

  /**
   * `_range_predicate_uint`: `Ok(None)` is the `(False, None)` answer for a
   * label that is not a `uintN`; a `uintN` label gets `range_uint` of its width
   * when the width is valid and raises otherwise.
   */
  function RangePredicateUint(t: string): (r: Result<Option<RangePredicate>, Error>)
    ensures !("uint" <= t && !IsArrayLabel(t)) ==> r == Ok(None)
    ensures "uint" <= t && !IsArrayLabel(t) ==> r != Ok(None)
    ensures r.Ok? && r.value.Some? ==>
      && r.value.value.RangeUint?
      && ValidUintWidth(r.value.value.width)
      && ParseInt(t[4..], 10) == Some(r.value.value.width)
    ensures r.Err? ==> "uint" <= t && (r.error == UnsupportedRangePredicate(t) || r.error == InvalidLiteral(t[4..], 10))
  {
    if "uint" <= t && !IsArrayLabel(t) then
      var w :- ToInt(t[4..], 10);
      if ValidUintWidth(w) then Ok(Some(RangeUint(w))) else Err(UnsupportedRangePredicate(t))
    else Ok(None)
  }

  /**
   * `_range_predicate`: `Ok(None)` is the "no predicate" answer, which is not an
   * error. It raises exactly when the `uintN` check raises, and each predicate
   * belongs to the label it is listed for.
   */
  function RangePredicateOf(t: string): (r: Result<Option<RangePredicate>, Error>)
    ensures r.Err? <==> RangePredicateUint(t).Err?
    ensures r.Ok? && r.value.Some? ==> match r.value.value
      case RangeUint(w) => ValidUintWidth(w) && (t == "bytes32" || ("uint" <= t && ParseInt(t[4..], 10) == Some(w)))
      case RangeSint(w) => t == "int256" && w == 256
      case RangeAddress => t == "address"
      case RangeBool => t == "bool"
      case RangeBytes(n) => t == "bytes4" && n == 4
      case RangeUintOfSize(w) => t == "bytes" && w == 128
      case TrueGuard => t == "string"
  {
    var u :- RangePredicateUint(t);
    if u.Some? then Ok(u)
    else if t == "address" then Ok(Some(RangeAddress))
    else if t == "bool" then Ok(Some(RangeBool))
    else if t == "bytes4" then Ok(Some(RangeBytes(4)))
    else if t == "bytes32" || t == "uint256" then Ok(Some(RangeUint(256)))
    else if t == "int256" then Ok(Some(RangeSint(256)))
    else if t == "bytes" then Ok(Some(RangeUintOfSize(128)))
    else if t == "string" then Ok(Some(TrueGuard))
    else Ok(None)
  }

  // ---------------------------------------------------------------------------
  // properties

  lemma DecimalDigitsNotBracket(n: int)
    ensures IntString(n) != [] && !IsArrayLabel(IntString(n))
  {
    var d := NatString(if n < 0 then -n else n);
    assert IsDigit(d[|d| - 1], 10);
    assert IntString(n)[|IntString(n)| - 1] == d[|d| - 1];
  }

  /** `uintN` is an integer type exactly for the valid widths and an error for every other width. */
  lemma UintClassification(n: int)
    ensures IsIntType("uint" + IntString(n))
         == if ValidUintWidth(n) then Ok(true) else Err(UnsupportedBaseSort("uint" + IntString(n)))
  {
    var t := "uint" + IntString(n);
    ParseIntString(n);
    DecimalDigitsNotBracket(n);
    assert t[4..] == IntString(n);
    assert t[0] == 'u';
    assert IsArrayLabel(t) == IsArrayLabel(IntString(n));
  }

  /** `bytesN` is an integer type for N in {4, 32} and an error for every other width. */
  lemma BytesClassification(n: int)
    ensures IsIntType("bytes" + IntString(n))
         == if n == 4 || n == 32 then Ok(true) else Err(UnsupportedBaseSort("bytes" + IntString(n)))
  {
    var t := "bytes" + IntString(n);
    ParseIntString(n);
    DecimalDigitsNotBracket(n);
    assert t[5..] == IntString(n);
    assert t[..5] == "bytes";
    assert IsArrayLabel(t) == IsArrayLabel(IntString(n));
  }

  /** `intN` is an integer type for N = 256 and an error for every other width. */
  lemma IntClassification(n: int)
    ensures IsIntType("int" + IntString(n))
         == if n == 256 then Ok(true) else Err(UnsupportedBaseSort("int" + IntString(n)))
  {
    var t := "int" + IntString(n);
    ParseIntString(n);
    DecimalDigitsNotBracket(n);
    assert t[3..] == IntString(n);
    assert t[0] == 'i';
    assert IsArrayLabel(t) == IsArrayLabel(IntString(n));
  }

  /** Array types are never integers (unless the label is literally `address` or `bool`, which cannot end in `]`). */
  lemma ArraysAreNotInt(t: string)
    requires IsArrayLabel(t)
    ensures IsIntType(t) == Ok(false)
    ensures RangePredicateOf(t) == Ok(None)
  {
    assert "address"[6] != ']' && "bool"[3] != ']' && "bytes4"[5] != ']' && "bytes32"[6] != ']';
    assert "uint256"[6] != ']' && "int256"[5] != ']' && "bytes"[4] != ']' && "string"[5] != ']';
  }

  /** `uintN` gets `RangeUint(N)` for the valid widths and raises for the others. */
  lemma UintRange(n: int)
    ensures RangePredicateOf("uint" + IntString(n))
         == if ValidUintWidth(n) then Ok(Some(RangeUint(n))) else Err(UnsupportedRangePredicate("uint" + IntString(n)))
  {
    var t := "uint" + IntString(n);
    ParseIntString(n);
    DecimalDigitsNotBracket(n);
    assert t[4..] == IntString(n);
    assert IsArrayLabel(t) == IsArrayLabel(IntString(n));
  }

  lemma SmallDecimals()
    ensures IntString(4) == "4" && IntString(32) == "32" && IntString(256) == "256"
  {
    assert NatString(32) == NatString(3) + [DecimalDigit(2)];
    assert NatString(256) == NatString(25) + [DecimalDigit(6)];
    assert NatString(25) == NatString(2) + [DecimalDigit(5)];
  }

  /** `bytesN` for a width other than 4 and 32 has no range predicate. */
  lemma BytesWidthHasNoPredicate(n: int)
    requires n != 4 && n != 32
    ensures RangePredicateOf("bytes" + IntString(n)) == Ok(None)
  {
    var b := "bytes" + IntString(n);
    SmallDecimals();
    ParseIntString(n);
    ParseIntString(4);
    ParseIntString(32);
    assert b[5..] == IntString(n) && "bytes4"[5..] == IntString(4) && "bytes32"[5..] == IntString(32);
    assert b != "bytes4" && b != "bytes32";
    assert b[0] == 'b' && b[..5] == "bytes" && b != "bytes";
    OthersHaveNoPredicate(b);
  }

  /** `intN` for a width other than 256 has no range predicate. */
  lemma IntWidthHasNoPredicate(n: int)
    requires n != 256
    ensures RangePredicateOf("int" + IntString(n)) == Ok(None)
  {
    var i := "int" + IntString(n);
    SmallDecimals();
    ParseIntString(n);
    ParseIntString(256);
    assert i[3..] == IntString(n) && "int256"[3..] == IntString(256);
    assert i != "int256";
    assert i[0] == 'i';
    OthersHaveNoPredicate(i);
  }

  /**
   * The labels `_range_predicate` lists by name each get their predicate:
   * `bytes32` shares `range_uint(256)` with `uint256`, and `bytes` is guarded
   * by the range of its size.
   */
  lemma NamedPredicates()
    ensures RangePredicateOf("address") == Ok(Some(RangeAddress))
    ensures RangePredicateOf("bool") == Ok(Some(RangeBool))
    ensures RangePredicateOf("bytes4") == Ok(Some(RangeBytes(4)))
    ensures RangePredicateOf("bytes32") == Ok(Some(RangeUint(256)))
    ensures RangePredicateOf("int256") == Ok(Some(RangeSint(256)))
    ensures RangePredicateOf("bytes") == Ok(Some(RangeUintOfSize(128)))
    ensures RangePredicateOf("string") == Ok(Some(TrueGuard))
  {
    assert "address"[0] == 'a' && "bool"[0] == 'b' && "bytes4"[0] == 'b' && "bytes32"[0] == 'b';
    assert "int256"[0] == 'i' && "bytes"[0] == 'b' && "string"[0] == 's';
  }

  /** The sort a range predicate implies: integer ranges guard `Int`, the size range `Bytes`, `TRUE` `String`. */
  function SortGuarded(p: RangePredicate): Sort
  {
    match p
    case RangeUintOfSize(_) => BytesSort
    case TrueGuard => StringSort
    case _ => IntSort
  }

  lemma NamedIntTypes()
    ensures IsIntType("bytes4") == Ok(true) && IsIntType("bytes32") == Ok(true) && IsIntType("int256") == Ok(true)
  {
    SmallDecimals();
    BytesClassification(4);
    BytesClassification(32);
    IntClassification(256);
    assert "bytes" + IntString(4) == "bytes4";
    assert "bytes" + IntString(32) == "bytes32";
    assert "int" + IntString(256) == "int256";
  }

  lemma UintAgrees(t: string)
    requires "uint" <= t && !IsArrayLabel(t)
    ensures RangePredicateOf(t).Ok? && RangePredicateOf(t).value.Some? ==>
              BaseSort(t) == Ok(SortGuarded(RangePredicateOf(t).value.value))
    ensures RangePredicateOf(t).Err? ==> BaseSort(t).Err?
  {
    assert t[0] == 'u';
    assert !(t == "address" || t == "bool");
    assert !("bytes" <= t) && !("int" <= t);
  }

  /** The labels whose predicate does not come from the `uintN` check, one group at a time. */
  lemma NamedAgree(t: string)
    requires t == "bytes4" || t == "bytes32" || t == "int256" || t == "address" || t == "bool"
    ensures BaseSort(t) == Ok(IntSort)
  {
    NamedIntTypes();
  }

  lemma BytesStringAgree(t: string)
    requires t == "bytes" || t == "string"
    ensures BaseSort(t) == Ok(if t == "bytes" then BytesSort else StringSort)
  {
    assert t[0] == 'b' || t[0] == 's';
    assert |t| <= 6 && !IsArrayLabel(t);
    assert IsIntType(t) == Ok(false);
  }

  lemma OthersHaveNoPredicate(t: string)
    requires !("uint" <= t && !IsArrayLabel(t))
    requires t != "bytes4" && t != "bytes32" && t != "int256" && t != "address" && t != "bool"
    requires t != "bytes" && t != "string"
    ensures RangePredicateOf(t) == Ok(None)
  {
  }

  /**
   * The two classifications agree: whenever a label has a range predicate,
   * `_evm_base_sort` gives it the sort that predicate is about, and whenever
   * the range predicate raises, so does the sort classifier.
   */
  lemma PredicateAgreesWithSort(t: string)
    ensures RangePredicateOf(t).Ok? && RangePredicateOf(t).value.Some? ==>
              BaseSort(t) == Ok(SortGuarded(RangePredicateOf(t).value.value))
    ensures RangePredicateOf(t).Err? ==> BaseSort(t).Err?
  {
    if "uint" <= t && !IsArrayLabel(t) {
      UintAgrees(t);
    } else {
      assert RangePredicateUint(t) == Ok(None);
      if t == "bytes4" || t == "bytes32" || t == "int256" || t == "address" || t == "bool" {
        NamedAgree(t);
      } else if t == "bytes" || t == "string" {
        BytesStringAgree(t);
      } else {
        OthersHaveNoPredicate(t);
      }
    }
  }
}
