/**
 * `method_sig_from_abi`: the canonical signature `name(type1,type2,...)` of an
 * ABI function entry, under which the compiler's `methodIdentifiers` table
 * lists the selector (Solidity Contract ABI Specification, sections "Function
 * Selector" and "Handling tuple types").
 */
module Signatures {
  import opened Wrappers
  import opened Errors
  import opened PyStr

  /** One entry of an ABI `inputs` (or `components`) list. */
  datatype AbiInput = AbiInput(name: string, abiType: string, components: seq<AbiInput>)

  /** One entry of the ABI: `type`, `name`, `inputs` and `stateMutability`. */
  datatype AbiEntry = AbiEntry(entryType: string, name: string, inputs: seq<AbiInput>, stateMutability: string)

  /** The array suffix read from a type: none, `[]`, or `[N]`. */
  datatype ArraySuffix = NoSuffix | Dynamic | Sized(size: int)

  /**
   * Python's `re.match(r'.+\[.*\]', t)`: some `[` after the first character,
   * a later `]`, and no newline before that `]` (`.` does not match one).
   * The match is anchored at the start only, so text may follow the `]`.
   */
  predicate MatchesArraySyntax(t: string)
  {
    exists i, j | 1 <= i < j < |t| :: t[i] == '[' && t[j] == ']' && '\n' !in t[..j]
  }

  lemma BracketCounted(t: string)
    requires MatchesArraySyntax(t)
    ensures Count(t, '[') > 0
  {
    var i, j :| 1 <= i < j < |t| && t[i] == '[' && t[j] == ']' && '\n' !in t[..j];
    CountPositive(t, '[', i);
  }

  /** Python's `s[:-1]`. */
  function DropLast(s: string): string
  {
    if s == [] then s else s[..|s| - 1]
  }

  /**
   * The base type and suffix `unparse_input` reads from a type string: the text
   * before the first `[`, and the text between the first `[` and the next `[`
   * without its last character as the size (empty for `[]`).
   */
  function ArrayParts(t: string): Result<(string, ArraySuffix), Error>
  {
    if MatchesArraySyntax(t) then
      BracketCounted(t);
      var parts := Split(t, '[');
      var sizeText := DropLast(parts[1]);
      if sizeText != "" then
        var n :- ToInt(sizeText, 10);
        Ok((parts[0], Sized(n)))
      else Ok((parts[0], Dynamic))
    else Ok((t, NoSuffix))
  }

  function SuffixText(suffix: ArraySuffix): string
  {
    match suffix
    case NoSuffix => ""
    case Dynamic => "[]"
    case Sized(n) => "[" + IntString(n) + "]"
  }

  /** `unparse_input`: a tuple is rebuilt from its components, any other type is kept verbatim. */
  function Canonical(x: AbiInput): Result<string, Error>
    decreases x
  {
    var p :- ArrayParts(x.abiType);
    if p.0 == "tuple" then
      var cs :- CanonicalAll(x.components);
      Ok("(" + Join(cs, ",") + ")" + SuffixText(p.1))
    else Ok(x.abiType)
  }

  /** The canonical types of a list of inputs, in order; the first failure is the one reported. */
  function CanonicalAll(xs: seq<AbiInput>): (r: Result<seq<string>, Error>)
    ensures r.Ok? ==> |r.value| == |xs|
    decreases xs
  {
    if xs == [] then Ok([])
    else
      var init :- CanonicalAll(xs[..|xs| - 1]);
      var last :- Canonical(xs[|xs| - 1]);
      Ok(init + [last])
  }

  /** `method_sig_from_abi`. */
  function Signature(e: AbiEntry): Result<string, Error>
  {
    var cs :- CanonicalAll(e.inputs);
    Ok(e.name + "(" + Join(cs, ",") + ")")
  }

  /** Once a prefix of the inputs fails, the whole list fails with the same error. */
  lemma {:induction false} CanonicalAllPrefixError(xs: seq<AbiInput>, k: nat)
    requires k <= |xs| && CanonicalAll(xs[..k]).Err?
    ensures CanonicalAll(xs) == CanonicalAll(xs[..k])
    decreases |xs| - k
  {
    if k < |xs| {
      assert xs[..k + 1][..k] == xs[..k];
      CanonicalAllPrefixError(xs, k + 1);
    } else {
      assert xs[..k] == xs;
    }
  }

  /** One step of a loop over inputs: the next canonical type either extends the list or is the error of the whole list. */
  lemma CanonicalAllStep(xs: seq<AbiInput>, i: nat, done: seq<string>, c: Result<string, Error>)
    requires i < |xs| && CanonicalAll(xs[..i]) == Ok(done) && c == Canonical(xs[i])
    ensures c.Err? ==> CanonicalAll(xs) == Err(c.error)
    ensures c.Ok? ==> CanonicalAll(xs[..i + 1]) == Ok(done + [c.value])
  {
    assert xs[..i + 1][..i] == xs[..i];
    if c.Err? {
      CanonicalAllPrefixError(xs, i + 1);
    }
  }

  /**
   * The first half of `unparse_input`: the `is_array`/`is_sized`/`array_size`
   * flags and the base type, returned as one suffix value.
   */
  method ReadArraySuffix(t: string) returns (r: Result<(string, ArraySuffix), Error>)
    ensures r == ArrayParts(t)
  {
    var isArray := false;
    var isSized := false;
    var arraySize := 0;
    var baseType := t;
    if MatchesArraySyntax(baseType) {
      isArray := true;
      BracketCounted(baseType);
      var parts := Split(baseType, '[');
      var sizeText := DropLast(parts[1]);
      if sizeText != "" {
        isSized := true;
        var n := ToInt(sizeText, 10);
        if n.Err? {
          return Err(n.error);
        }
        arraySize := n.value;
      }
      baseType := parts[0];
    }
    var suffix := if !isArray then NoSuffix else if isSized then Sized(arraySize) else Dynamic;
    return Ok((baseType, suffix));
  }

  /** `unparse_input` as the source writes it: a loop over the components of a tuple, and recursion. */
  method UnparseInput(x: AbiInput) returns (r: Result<string, Error>)
    ensures r == Canonical(x)
    decreases x
  {
    var p := ReadArraySuffix(x.abiType);
    if p.Err? {
      return Err(p.error);
    }
    var baseType, suffix := p.value.0, p.value.1;
    if baseType == "tuple" {
      var text := "(";
      ghost var done: seq<string> := [];
      for i := 0 to |x.components|
        invariant CanonicalAll(x.components[..i]) == Ok(done)
        invariant text == "(" + Join(done, ",")
      {
        if i != 0 {
          text := text + ",";
        }
        var c := UnparseInput(x.components[i]);
        CanonicalAllStep(x.components, i, done, c);
        if c.Err? {
          assert ArrayParts(x.abiType) == Ok(("tuple", suffix));
          TupleWithSuffix(x, suffix);
          return Err(c.error);
        }
        JoinSnoc(done, c.value, ",");
        text := text + c.value;
        done := done + [c.value];
      }
      assert x.components[..|x.components|] == x.components;
      assert ArrayParts(x.abiType) == Ok(("tuple", suffix));
      TupleWithSuffix(x, suffix);
      text := text + ")";
      match suffix {
        case Dynamic => text := text + "[]";
        case Sized(n) => text := text + ("[" + IntString(n) + "]");
        case NoSuffix =>
      }
      assert text == "(" + Join(done, ",") + ")" + SuffixText(suffix);
      return Ok(text);
    } else {
      return Ok(x.abiType);
    }
  }

  /** `method_sig_from_abi` as the source writes it: a loop that appends each input's canonical type. */
  method MethodSigFromAbi(e: AbiEntry) returns (r: Result<string, Error>)
    ensures r == Signature(e)
  {
    var args := "";
    ghost var done: seq<string> := [];
    for i := 0 to |e.inputs|
      invariant CanonicalAll(e.inputs[..i]) == Ok(done)
      invariant args == Join(done, ",")
    {
      if i != 0 {
        args := args + ",";
      }
      var c := UnparseInput(e.inputs[i]);
      CanonicalAllStep(e.inputs, i, done, c);
      if c.Err? {
        return Err(c.error);
      }
      JoinSnoc(done, c.value, ",");
      args := args + c.value;
      done := done + [c.value];
    }
    assert e.inputs[..|e.inputs|] == e.inputs;
    return Ok(e.name + "(" + args + ")");
  }

  // ---------------------------------------------------------------------------
  // properties

  /** A type with no `[` in it is not an array. */
  lemma NoBracketNoArray(t: string)
    requires '[' !in t
    ensures ArrayParts(t) == Ok((t, NoSuffix))
  {
    forall i | 0 <= i < |t| ensures t[i] != '[' {
      assert t[i] in t;
    }
  }

  /** A type with no `[` that is not `tuple` appears in the signature verbatim. */
  lemma ScalarVerbatim(x: AbiInput)
    requires '[' !in x.abiType && x.abiType != "tuple"
    ensures Canonical(x) == Ok(x.abiType)
  {
    NoBracketNoArray(x.abiType);
  }

  /**
   * An array of a type other than `tuple`, such as `uint256[]`, `address[2]` or
   * `bytes32[][3]`, appears in the signature verbatim, provided its first size
   * is empty or a decimal literal; any other first size raises.
   */
  lemma ArrayVerbatim(x: AbiInput, base: string, m: string, rest: string)
    requires base != [] && '[' !in base && '\n' !in base && base != "tuple"
    requires '[' !in m && '\n' !in m
    requires rest == [] || rest[0] == '['
    requires x.abiType == base + "[" + m + "]" + rest
    ensures m == "" || ToInt(m, 10).Ok? ==> Canonical(x) == Ok(x.abiType)
    ensures m != "" && ToInt(m, 10).Err? ==> Canonical(x) == Err(InvalidLiteral(m, 10))
  {
    FirstBracketParts(base, m, rest);
  }

  /** `base[m]rest` matches the array pattern: the first `[` follows the base and a `]` closes it. */
  lemma BracketMatches(base: string, m: string, rest: string)
    requires base != [] && '\n' !in base && '\n' !in m
    ensures MatchesArraySyntax(base + "[" + m + "]" + rest)
  {
    var t := base + "[" + m + "]" + rest;
    var j := |base| + 1 + |m|;
    assert t[|base|] == '[' && t[j] == ']';
    assert t[..j] == base + "[" + m;
    assert '\n' !in t[..j];
  }

  /** Splitting `base[m]rest` at `[` gives the base, then `m]`, when `rest` is empty or starts a bracket. */
  lemma BracketSplit(base: string, m: string, rest: string)
    requires '[' !in base && '[' !in m
    requires rest == [] || rest[0] == '['
    ensures |Split(base + "[" + m + "]" + rest, '[')| >= 2
    ensures Split(base + "[" + m + "]" + rest, '[')[..2] == [base, m + "]"]
  {
    var u := m + "]";
    BracketShape(base, m, rest);
    assert '[' !in u by {
      forall i | 0 <= i < |u| ensures u[i] != '[' {
        assert i < |m| ==> u[i] == m[i] && m[i] in m;
      }
    }
    SplitAtFirst(base, '[', u + rest);
    if rest == [] {
      assert u + rest == u;
      SplitNoSeparator(u, '[');
    } else {
      assert u + rest == u + ['['] + rest[1..];
      SplitAtFirst(u, '[', rest[1..]);
    }
  }

  /** Regrouping of the concatenation, proved apart so that the caller's proof stays small. */
  lemma BracketShape(base: string, m: string, rest: string)
    ensures base + "[" + m + "]" + rest == base + ['['] + (m + "]" + rest)
  {
  }

  /**
   * A type `base[m]rest`, where `rest` is empty or starts another bracket: the
   * base is the text before the bracket and `m` is read as the size, empty for
   * a dynamic array.
   */
  lemma FirstBracketParts(base: string, m: string, rest: string)
    requires base != [] && '[' !in base && '[' !in m && '\n' !in base && '\n' !in m
    requires rest == [] || rest[0] == '['
    ensures ArrayParts(base + "[" + m + "]" + rest)
         == if m == "" then Ok((base, Dynamic))
            else match ToInt(m, 10) case Ok(n) => Ok((base, Sized(n))) case Err(e) => Err(e)
  {
    var t := base + "[" + m + "]" + rest;
    BracketMatches(base, m, rest);
    BracketSplit(base, m, rest);
    var parts := Split(t, '[');
    assert parts[0] == base && parts[1] == m + "]";
    assert DropLast(m + "]") == m;
  }

  lemma DigitsHaveNoBrackets(k: nat)
    ensures '[' !in NatString(k) && '\n' !in NatString(k)
  {
    var d := NatString(k);
    forall i | 0 <= i < |d| ensures d[i] != '[' && d[i] != '\n' {
      assert IsDigit(d[i], 10);
    }
  }

  lemma TupleDynamicParts()
    ensures ArrayParts("tuple[]") == Ok(("tuple", Dynamic))
  {
    assert '[' !in "tuple" && '\n' !in "tuple";
    FirstBracketParts("tuple", "", "");
    assert "tuple" + "[" + "" + "]" + "" == "tuple[]";
  }

  /** `base[k]`, possibly followed by further brackets, is an array of size `k`. */
  lemma SizedParts(base: string, k: nat, rest: string)
    requires base != [] && '[' !in base && '\n' !in base
    requires rest == [] || rest[0] == '['
    ensures ArrayParts(base + "[" + NatString(k) + "]" + rest) == Ok((base, Sized(k)))
  {
    var d := NatString(k);
    DigitsHaveNoBrackets(k);
    ParseIntString(k);
    NatStringIsIntString(k);
    assert ToInt(d, 10) == Ok(k) && d != [];
    FirstBracketParts(base, d, rest);
  }

  /** `tuple[k]`, possibly followed by further brackets, is a tuple array of size `k`. */
  lemma TupleSizedParts(k: nat, rest: string)
    requires rest == [] || rest[0] == '['
    ensures ArrayParts("tuple[" + NatString(k) + "]" + rest) == Ok(("tuple", Sized(k)))
  {
    var base := "tuple";
    assert '[' !in base && '\n' !in base;
    SizedParts(base, k, rest);
    TupleOpen(NatString(k), rest);
  }

  /** Regrouping of the concatenation, proved apart so that the caller's proof stays small. */
  lemma TupleOpen(d: string, rest: string)
    ensures "tuple" + "[" + d + "]" + rest == "tuple[" + d + "]" + rest
  {
    assert "tuple" + "[" == "tuple[";
  }

  lemma SizedSuffixText(body: string, k: nat)
    ensures body + SuffixText(Sized(k)) == body + "[" + NatString(k) + "]"
  {
    NatStringIsIntString(k);
  }

  /**
   * A tuple that is not an array is written as its components' canonical
   * types between parentheses, in declared order; a failing component fails
   * the whole tuple.
   */
  lemma TupleCanonical(name: string, cs: seq<AbiInput>)
    ensures CanonicalAll(cs).Ok? ==>
      Canonical(AbiInput(name, "tuple", cs)) == Ok("(" + Join(CanonicalAll(cs).value, ",") + ")")
    ensures CanonicalAll(cs).Err? ==> Canonical(AbiInput(name, "tuple", cs)) == Err(CanonicalAll(cs).error)
  {
    NoBracketNoArray("tuple");
    TupleWithSuffix(AbiInput(name, "tuple", cs), NoSuffix);
    if CanonicalAll(cs).Ok? {
      var body := "(" + Join(CanonicalAll(cs).value, ",") + ")";
      assert body + SuffixText(NoSuffix) == body;
    }
  }

  /** A dynamic array of tuples is written as the tuple followed by `[]`. */
  lemma DynamicTupleCanonical(name: string, cs: seq<AbiInput>)
    ensures CanonicalAll(cs).Ok? ==>
      Canonical(AbiInput(name, "tuple[]", cs)) == Ok("(" + Join(CanonicalAll(cs).value, ",") + ")" + "[]")
    ensures CanonicalAll(cs).Err? ==> Canonical(AbiInput(name, "tuple[]", cs)) == Err(CanonicalAll(cs).error)
  {
    TupleDynamicParts();
    TupleWithSuffix(AbiInput(name, "tuple[]", cs), Dynamic);
  }

  /** An array of `k` tuples is written as the tuple followed by `[k]`. */
  lemma SizedTupleCanonical(name: string, cs: seq<AbiInput>, k: nat)
    ensures CanonicalAll(cs).Ok? ==>
      Canonical(AbiInput(name, "tuple[" + NatString(k) + "]", cs))
        == Ok("(" + Join(CanonicalAll(cs).value, ",") + ")" + "[" + NatString(k) + "]")
    ensures CanonicalAll(cs).Err? ==>
      Canonical(AbiInput(name, "tuple[" + NatString(k) + "]", cs)) == Err(CanonicalAll(cs).error)
  {
    TupleSizedParts(k, "");
    var sized := "tuple[" + NatString(k) + "]";
    assert sized + "" == sized;
    TupleWithSuffix(AbiInput(name, sized, cs), Sized(k));
    if CanonicalAll(cs).Ok? {
      SizedSuffixText("(" + Join(CanonicalAll(cs).value, ",") + ")", k);
    }
  }

  lemma TupleWithSuffix(x: AbiInput, suffix: ArraySuffix)
    requires ArrayParts(x.abiType) == Ok(("tuple", suffix))
    ensures CanonicalAll(x.components).Ok? ==>
      Canonical(x) == Ok("(" + Join(CanonicalAll(x.components).value, ",") + ")" + SuffixText(suffix))
    ensures CanonicalAll(x.components).Err? ==> Canonical(x) == Err(CanonicalAll(x.components).error)
  {
  }

  /**
   * Only the first bracket survives: an array of arrays of tuples, such as
   * `tuple[2][3]`, loses every dimension after the first and is written as
   * `(...)[2]`.
   */
  lemma OnlyFirstDimensionKept(name: string, cs: seq<AbiInput>, k: nat, rest: string)
    requires CanonicalAll(cs).Ok? && rest != [] && rest[0] == '['
    ensures Canonical(AbiInput(name, "tuple[" + NatString(k) + "]" + rest, cs))
         == Ok("(" + Join(CanonicalAll(cs).value, ",") + ")[" + NatString(k) + "]")
  {
    var d := NatString(k);
    var x := AbiInput(name, "tuple[" + d + "]" + rest, cs);
    TupleSizedParts(k, rest);
    TupleWithSuffix(x, Sized(k));
    var j := Join(CanonicalAll(cs).value, ",");
    SizedSuffixText("(" + j + ")", k);
    BracketAfterParen(j, d);
  }

  /** Regrouping of the concatenation, proved apart so that the caller's proof stays small. */
  lemma BracketAfterParen(j: string, d: string)
    ensures "(" + j + ")" + "[" + d + "]" == "(" + j + ")[" + d + "]"
  {
  }

  /** The base read from a type is the text it starts with. */
  lemma ArrayPartsBase(t: string)
    ensures ArrayParts(t).Ok? ==> ArrayParts(t).value.0 <= t
  {
    if MatchesArraySyntax(t) {
      SplitFirstIsPrefix(t, '[');
    }
  }

  /**
   * `unparse_input` as evidently intended: a tuple keeps every array dimension
   * written after it, as non-tuple types do, so that `tuple[2][3]` becomes
   * `(...)[2][3]`.
   */
  function CanonicalFull(x: AbiInput): Result<string, Error>
    decreases x
  {
    var p :- ArrayParts(x.abiType);
    if p.0 == "tuple" then
      ArrayPartsBase(x.abiType);
      var cs :- CanonicalAllFull(x.components);
      Ok("(" + Join(cs, ",") + ")" + x.abiType[|"tuple"|..])
    else Ok(x.abiType)
  }

  function CanonicalAllFull(xs: seq<AbiInput>): (r: Result<seq<string>, Error>)
    ensures r.Ok? ==> |r.value| == |xs|
    decreases xs
  {
    if xs == [] then Ok([])
    else
      var init :- CanonicalAllFull(xs[..|xs| - 1]);
      var last :- CanonicalFull(xs[|xs| - 1]);
      Ok(init + [last])
  }

  /** Every dimension after the first survives: `tuple[k]rest` becomes the tuple, then `[k]rest`. */
  lemma AllDimensionsKept(name: string, cs: seq<AbiInput>, k: nat, rest: string)
    requires CanonicalAllFull(cs).Ok? && (rest == [] || rest[0] == '[')
    ensures CanonicalFull(AbiInput(name, "tuple[" + NatString(k) + "]" + rest, cs))
         == Ok("(" + Join(CanonicalAllFull(cs).value, ",") + ")[" + NatString(k) + "]" + rest)
  {
    var d := NatString(k);
    var j := Join(CanonicalAllFull(cs).value, ",");
    DimensionsShape(j, d, rest);
    TupleSizedParts(k, rest);
    TupleWithDimensions(AbiInput(name, "tuple" + ("[" + d + "]" + rest), cs), "tuple", "[" + d + "]" + rest);
  }

  /** Regrouping of the concatenation, proved apart so that the caller's proof stays small. */
  lemma DimensionsShape(j: string, d: string, rest: string)
    ensures "tuple[" + d + "]" + rest == "tuple" + ("[" + d + "]" + rest)
    ensures "(" + j + ")" + ("[" + d + "]" + rest) == "(" + j + ")[" + d + "]" + rest
  {
  }

  lemma TupleWithDimensions(x: AbiInput, base: string, dims: string)
    requires x.abiType == base + dims && base == "tuple"
    requires ArrayParts(x.abiType).Ok? && ArrayParts(x.abiType).value.0 == "tuple"
    ensures CanonicalAllFull(x.components).Ok? ==>
      CanonicalFull(x) == Ok("(" + Join(CanonicalAllFull(x.components).value, ",") + ")" + dims)
  {
    assert x.abiType[|base|..] == dims;
  }

  /** `tuple[2][3]` with no components: written `()[2]`, where the intended canonical type is `()[2][3]`. */
  lemma SecondDimensionDropped(name: string)
    ensures Canonical(AbiInput(name, "tuple[2][3]", [])) == Ok("()[2]")
    ensures CanonicalFull(AbiInput(name, "tuple[2][3]", [])) == Ok("()[2][3]")
  {
    var cs: seq<AbiInput> := [];
    assert CanonicalAll(cs) == Ok([]) && CanonicalAllFull(cs) == Ok([]);
    OnlyFirstDimensionKept(name, cs, 2, "[3]");
    AllDimensionsKept(name, cs, 2, "[3]");
    TwoByThreeText();
  }

  /** The literal texts of the `tuple[2][3]` case, proved apart so that the caller's proof stays small. */
  lemma TwoByThreeText()
    ensures "tuple[" + NatString(2) + "]" + "[3]" == "tuple[2][3]"
    ensures "(" + Join([], ",") + ")[" + NatString(2) + "]" == "()[2]"
    ensures "(" + Join([], ",") + ")[" + NatString(2) + "]" + "[3]" == "()[2][3]"
  {
    assert NatString(2) == "2";
    assert Join([], ",") == "";
  }

  /** Appending an input appends its canonical type, or reports the first failure. */
  lemma CanonicalAllSnoc(xs: seq<AbiInput>, y: AbiInput)
    ensures CanonicalAll(xs + [y])
         == match CanonicalAll(xs)
            case Err(e) => Err(e)
            case Ok(init) => match Canonical(y) case Err(e) => Err(e) case Ok(last) => Ok(init + [last])
  {
    var zs := xs + [y];
    assert zs[..|zs| - 1] == xs && zs[|zs| - 1] == y;
  }

  lemma CanonicalPair(a: AbiInput, b: AbiInput)
    requires Canonical(a).Ok? && Canonical(b).Ok?
    ensures CanonicalAll([a, b]) == Ok([Canonical(a).value, Canonical(b).value])
  {
    var x, y := Canonical(a).value, Canonical(b).value;
    CanonicalAllSnoc([], a);
    assert [] + [a] == [a] && [] + [x] == [x];
    assert CanonicalAll([a]) == Ok([x]);
    CanonicalAllSnoc([a], b);
    assert [a] + [b] == [a, b] && [x] + [y] == [x, y];
  }

  /**
   * A tuple of two scalar components, as in the ABI specification's example
   * `(uint256,address)`: its canonical type lists both component types between
   * parentheses, separated by a comma, and its dynamic array adds `[]`.
   */
  lemma PairTuple(name: string, a: AbiInput, b: AbiInput)
    requires '[' !in a.abiType && a.abiType != "tuple"
    requires '[' !in b.abiType && b.abiType != "tuple"
    ensures Canonical(AbiInput(name, "tuple", [a, b])) == Ok("(" + a.abiType + "," + b.abiType + ")")
    ensures Canonical(AbiInput(name, "tuple[]", [a, b])) == Ok("(" + a.abiType + "," + b.abiType + ")[]")
  {
    ScalarVerbatim(a);
    ScalarVerbatim(b);
    CanonicalPair(a, b);
    JoinPair(a.abiType, b.abiType);
    TupleCanonical(name, [a, b]);
    DynamicTupleCanonical(name, [a, b]);
    PairShapes(a.abiType, b.abiType);
  }

  lemma JoinPair(x: string, y: string)
    ensures Join([x, y], ",") == x + "," + y
  {
    JoinSnoc([x], y, ",");
    assert [x] + [y] == [x, y];
  }

  /** Regrouping of the concatenation, proved apart so that the caller's proof stays small. */
  lemma PairShapes(x: string, y: string)
    ensures "(" + (x + "," + y) + ")" == "(" + x + "," + y + ")"
    ensures "(" + (x + "," + y) + ")" + "[]" == "(" + x + "," + y + ")[]"
  {
  }
}
