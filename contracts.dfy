/**
 * `Contract` and `Contract.Method`: the typed description of one compiled
 * contract, built from the compiler's JSON artifact, and the names under which
 * KEVM refers to the contract, its methods and its storage fields.
 */
module Contracts {
  import opened Wrappers
  import opened Errors
  import opened PyStr
  import opened AbiTypes
  import opened Signatures

  /** One entry of `storageLayout.storage`: a field label and its slot, as decimal text. */
  datatype StorageEntry = StorageEntry(fieldLabel: string, slot: string)

  /**
   * The parts of a compiler artifact the contract description reads: `id`,
   * `ast.absolutePath`, `abi`, `evm.deployedBytecode.object` and `sourceMap`,
   * `evm.methodIdentifiers`, and `storageLayout.storage` when present.
   */
  datatype ContractJson = ContractJson(
    id: int,
    absolutePath: string,
    abi: seq<AbiEntry>,
    deployedObject: string,
    sourceMap: Option<string>,
    methodIdentifiers: map<string, string>,
    storage: Option<seq<StorageEntry>>)

  /** `Contract.Method`; `sort` is the name of the K sort of the contract's methods. */
  datatype Method = Method(
    name: string,
    id: int,
    sort: string,
    argNames: seq<string>,
    argTypes: seq<string>,
    contractName: string,
    payable: bool,
    signature: string)

  /** `Contract`; the storage fields are a map from label to slot. */
  datatype Contract = Contract(
    name: string,
    contractId: int,
    contractPath: string,
    bytecode: string,
    rawSourceMap: Option<string>,
    methods: seq<Method>,
    fields: map<string, int>)

  // ---------------------------------------------------------------------------
  // name helpers

  /** `name_upper`: the name with its first character upper-cased. */
  function NameUpper(name: string): (r: string)
    ensures |r| == |name|
    ensures name != [] ==> r[0] == UpperChar(name[0]) && r[1..] == name[1..]
  {
    if name == [] then [] else Upper(name[..1]) + name[1..]
  }

  function ContractSort(name: string): string { NameUpper(name) + "Contract" }
  function FieldSort(name: string): string { NameUpper(name) + "Field" }
  function MethodSort(name: string): string { NameUpper(name) + "Method" }
  function ContractKLabel(name: string): string { "contract_" + name }
  function MethodKLabel(name: string): string { "method_" + name }
  function FieldKLabel(name: string): string { "field_" + name }

  /**
   * `contract_to_module_name`: the contract name upper-cased, then
   * `-BIN-RUNTIME`, then `-SPEC` for the specification module.
   */
  function ContractToModuleName(c: string, spec: bool): (r: string)
    ensures |r| == |c| + |"-BIN-RUNTIME"| + (if spec then |"-SPEC"| else 0)
    ensures forall i :: 0 <= i < |r| ==> !('a' <= r[i] <= 'z')
    ensures forall i :: 0 <= i < |c| && !('a' <= c[i] <= 'z') ==> r[i] == c[i]
    ensures r[|c|..] == if spec then "-BIN-RUNTIME-SPEC" else "-BIN-RUNTIME"
    ensures r[..|c|] == Upper(c)
  {
    Upper(c) + "-BIN-RUNTIME" + (if spec then "-SPEC" else "")
  }

  /** `test_to_claim_name`: every `_` becomes `-` and nothing else changes. */
  function TestToClaimName(t: string): (r: string)
    ensures |r| == |t| && '_' !in r
    ensures forall i :: 0 <= i < |t| ==> r[i] == if t[i] == '_' then '-' else t[i]
  {
    ReplaceChar(t, '_', '-')
  }

  /** `contract_test_to_claim_id`: `Contract.test` must split into exactly two parts at `.`. */
  function ContractTestToClaimId(ct: string, spec: bool): (r: Result<string, Error>)
    ensures r.Err? <==> Count(ct, '.') != 1
    ensures r.Err? ==> r.error == BadClaimId(ct)
  {
    var parts := Split(ct, '.');
    if |parts| != 2 then Err(BadClaimId(ct))
    else Ok(ContractToModuleName(parts[0], spec) + "." + TestToClaimName(parts[1]))
  }

  lemma UpperCharIdempotent(c: char)
    ensures UpperChar(UpperChar(c)) == UpperChar(c)
  {
  }

  /** `name_upper` on a name given as its first character and the rest. */
  lemma NameUpperCons(c: char, rest: string)
    ensures NameUpper([c] + rest) == [UpperChar(c)] + rest
  {
    var r := NameUpper([c] + rest);
    assert r[0] == UpperChar(c) && r[1..] == ([c] + rest)[1..] == rest;
    assert r == [r[0]] + r[1..];
  }

  /** Upper-casing the first character twice is the same as once. */
  lemma NameUpperIdempotent(name: string)
    ensures NameUpper(NameUpper(name)) == NameUpper(name)
  {
    if name != [] {
      assert name == [name[0]] + name[1..];
      NameUpperCons(name[0], name[1..]);
      UpperCharIdempotent(name[0]);
      NameUpperCons(UpperChar(name[0]), name[1..]);
    }
  }

  /** A contract's three sorts are distinct, and so are its three label prefixes. */
  lemma SortsAndLabelsDistinct(name: string)
    ensures ContractSort(name) != FieldSort(name)
    ensures ContractSort(name) != MethodSort(name)
    ensures FieldSort(name) != MethodSort(name)
    ensures ContractKLabel(name) != MethodKLabel(name)
    ensures ContractKLabel(name) != FieldKLabel(name)
    ensures MethodKLabel(name) != FieldKLabel(name)
  {
    var u := NameUpper(name);
    assert |ContractSort(name)| == |u| + 8 && |FieldSort(name)| == |u| + 5 && |MethodSort(name)| == |u| + 6;
    assert ContractKLabel(name)[0] == 'c' && MethodKLabel(name)[0] == 'm' && FieldKLabel(name)[0] == 'f';
  }

  /** Different contracts get different labels. */
  lemma KLabelsInjective(a: string, b: string)
    requires a != b
    ensures ContractKLabel(a) != ContractKLabel(b)
    ensures MethodKLabel(a) != MethodKLabel(b)
    ensures FieldKLabel(a) != FieldKLabel(b)
  {
    assert ContractKLabel(a)[9..] == a && ContractKLabel(b)[9..] == b;
    assert MethodKLabel(a)[7..] == a && MethodKLabel(b)[7..] == b;
    assert FieldKLabel(a)[6..] == a && FieldKLabel(b)[6..] == b;
  }

  lemma UpperKeepsDots(c: string)
    requires '.' !in c
    ensures '.' !in Upper(c)
  {
    forall i | 0 <= i < |c| ensures Upper(c)[i] != '.' {
      assert c[i] != '.';
    }
  }

  lemma ModuleNameKeepsDots(c: string, spec: bool)
    requires '.' !in c
    ensures '.' !in ContractToModuleName(c, spec)
  {
    UpperKeepsDots(c);
    assert '.' !in "-BIN-RUNTIME" && '.' !in "-SPEC";
  }

  lemma ClaimNameKeepsDots(t: string)
    requires '.' !in t
    ensures '.' !in TestToClaimName(t)
  {
    var claim := TestToClaimName(t);
    forall i | 0 <= i < |t| ensures claim[i] != '.' {
      assert t[i] != '.';
    }
  }

  /**
   * For a contract and a test name without dots, the claim id is the module
   * name and the claim name joined by the one dot, so both can be read back.
   */
  lemma ClaimIdRoundTrip(c: string, t: string, spec: bool)
    requires '.' !in c && '.' !in t
    ensures ContractTestToClaimId(c + "." + t, spec) == Ok(ContractToModuleName(c, spec) + "." + TestToClaimName(t))
    ensures Split(ContractToModuleName(c, spec) + "." + TestToClaimName(t), '.')
         == [ContractToModuleName(c, spec), TestToClaimName(t)]
  {
    assert c + "." + t == c + ['.'] + t;
    SplitAtFirst(c, '.', t);
    SplitNoSeparator(t, '.');
    var mod := ContractToModuleName(c, spec);
    var claim := TestToClaimName(t);
    ModuleNameKeepsDots(c, spec);
    ClaimNameKeepsDots(t);
    assert mod + "." + claim == mod + ['.'] + claim;
    SplitAtFirst(mod, '.', claim);
    SplitNoSeparator(claim, '.');
  }

  // ---------------------------------------------------------------------------
  // Contract.Method

  /** The synthetic name of argument `i`: `V{i}_{name}` with every `-` turned into `_`. */
  function ArgName(i: nat, n: string): (r: string)
    ensures '-' !in r
    ensures |r| > |n| && r[|r| - |n|..] == ReplaceChar(n, '-', '_')
  {
    var r := "V" + NatString(i) + "_" + ReplaceChar(n, '-', '_');
    assert forall k :: 0 <= k < |r| ==> r[k] != '-' by {
      forall k | 0 <= k < |r| ensures r[k] != '-' {
        if 1 <= k < 1 + |NatString(i)| {
          assert IsDigit(NatString(i)[k - 1], 10);
        }
      }
    }
    r
  }

  /** A digit run followed by `_` is not a proper prefix of another digit run. */
  lemma ShorterRunDiffers(d: string, e: string, s: string, t: string)
    ensures (|d| < |e| && forall k :: 0 <= k < |e| ==> IsDigit(e[k], 10)) ==> d + "_" + s != e + "_" + t
  {
    if |d| < |e| && forall k :: 0 <= k < |e| ==> IsDigit(e[k], 10) {
      assert (d + "_" + s)[|d|] == '_';
      assert (e + "_" + t)[|d|] == e[|d|];
    }
  }

  /** Two digit runs that are each followed by `_` in the same string are the same run. */
  lemma DigitRunUnique(d: string, e: string, s: string, t: string)
    requires forall k :: 0 <= k < |d| ==> IsDigit(d[k], 10)
    requires forall k :: 0 <= k < |e| ==> IsDigit(e[k], 10)
    requires d + "_" + s == e + "_" + t
    ensures d == e
  {
    ShorterRunDiffers(d, e, s, t);
    ShorterRunDiffers(e, d, t, s);
    var x := d + "_" + s;
    assert d == x[..|d|] == e;
  }

  /** `V`, a digit run and `_`: equal texts of this shape have equal digit runs. */
  lemma VPrefixedRunUnique(d: string, e: string, s: string, t: string)
    requires forall k :: 0 <= k < |d| ==> IsDigit(d[k], 10)
    requires forall k :: 0 <= k < |e| ==> IsDigit(e[k], 10)
    requires "V" + d + "_" + s == "V" + e + "_" + t
    ensures d == e
  {
    assert ("V" + d + "_" + s)[1..] == d + "_" + s;
    assert ("V" + e + "_" + t)[1..] == e + "_" + t;
    DigitRunUnique(d, e, s, t);
  }

  /** Argument names at different positions are different, whatever the inputs are called. */
  lemma ArgNameInjective(i: nat, a: string, j: nat, b: string)
    requires ArgName(i, a) == ArgName(j, b)
    ensures i == j
  {
    var di, dj := NatString(i), NatString(j);
    var sa, sb := ReplaceChar(a, '-', '_'), ReplaceChar(b, '-', '_');
    VPrefixedRunUnique(di, dj, sa, sb);
    NatStringIsIntString(i);
    NatStringIsIntString(j);
    IntStringInjective(i, j);
  }

  /**
   * `Contract.Method.__init__`: the name, argument names and types come from
   * the ABI entry's inputs in order, and the method is payable exactly when its
   * state mutability is `payable`.
   */
  function NewMethod(msig: string, id: int, abi: AbiEntry, contractName: string, sort: string): (m: Method)
    ensures |m.argNames| == |m.argTypes| == |abi.inputs|
    ensures forall i :: 0 <= i < |abi.inputs| ==> m.argTypes[i] == abi.inputs[i].abiType
    ensures forall i :: 0 <= i < |abi.inputs| ==> m.argNames[i] == ArgName(i, abi.inputs[i].name)
    ensures forall i, j :: 0 <= i < j < |m.argNames| ==> m.argNames[i] != m.argNames[j]
    ensures forall i :: 0 <= i < |m.argNames| ==> '-' !in m.argNames[i]
    ensures m.payable <==> abi.stateMutability == "payable"
  {
    var names := seq(|abi.inputs|, i requires 0 <= i < |abi.inputs| => ArgName(i, abi.inputs[i].name));
    forall i, j | 0 <= i < j < |names| ensures names[i] != names[j] {
      if names[i] == names[j] {
        ArgNameInjective(i, abi.inputs[i].name, j, abi.inputs[j].name);
      }
    }
    Method(abi.name, id, sort, names, seq(|abi.inputs|, i requires 0 <= i < |abi.inputs| => abi.inputs[i].abiType),
           contractName, abi.stateMutability == "payable", msig)
  }

  /**
   * `Contract.Method.klabel`: `method_{contract}_{name}_{types joined by _}`.
   * After the contract's prefix, splitting at `_` gives back the method name
   * and its argument types when none of them contains `_` (with no arguments
   * the label ends in `_`, leaving one empty piece).
   */
  function MethodLabel(m: Method): (r: string)
    ensures |r| > |MethodKLabel(m.contractName)| && r[..|MethodKLabel(m.contractName)| + 1] == MethodKLabel(m.contractName) + "_"
    ensures '_' !in m.name && (forall i :: 0 <= i < |m.argTypes| ==> '_' !in m.argTypes[i]) ==>
      Split(r[|MethodKLabel(m.contractName)| + 1..], '_') == [m.name] + (if m.argTypes == [] then [""] else m.argTypes)
  {
    MethodLabelTail(m.name, m.argTypes);
    MethodKLabel(m.contractName) + "_" + (m.name + "_" + Join(m.argTypes, "_"))
  }

  lemma MethodLabelTail(name: string, types: seq<string>)
    ensures '_' !in name && (forall i :: 0 <= i < |types| ==> '_' !in types[i]) ==>
      Split(name + "_" + Join(types, "_"), '_') == [name] + (if types == [] then [""] else types)
  {
    if '_' !in name && (forall i :: 0 <= i < |types| ==> '_' !in types[i]) {
      SplitAtFirst(name, '_', Join(types, "_"));
      if types != [] {
        SplitOfJoin(types, '_');
      }
    }
  }

  /**
   * Labels are not unique within a contract: `a(uint256,bool)` and
   * `a_uint256(bool)` both get `method_{contract}_a_uint256_bool`, so the two
   * methods' K productions would share one label.
   */
  lemma MethodLabelsCollide(m1: Method, m2: Method)
    requires m1.contractName == m2.contractName
    requires m1.name == "a" && m1.argTypes == ["uint256", "bool"]
    requires m2.name == "a_uint256" && m2.argTypes == ["bool"]
    ensures m1.name != m2.name && m1.argTypes != m2.argTypes
    ensures MethodLabel(m1) == MethodLabel(m2)
  {
    JoinSnoc(["uint256"], "bool", "_");
    assert ["uint256"] + ["bool"] == ["uint256", "bool"];
    assert m1.name + "_" + Join(m1.argTypes, "_") == "a_uint256_bool" == m2.name + "_" + Join(m2.argTypes, "_");
  }

  /**
   * What `Contract.Method.rule` builds: the rule rewrites the contract's method
   * application with this method's label and argument variables to the ABI
   * call data of the method's name and typed arguments, under the conjunction
   * of `guards` (the terms themselves are KEVM constructors and not modelled).
   */
  datatype CalldataRule = CalldataRule(
    applicationLabel: string,
    methodLabel: string,
    methodName: string,
    argNames: seq<string>,
    argTypes: seq<string>,
    guards: seq<RangePredicate>)

  /**
   * The guards of the arguments, in argument order. The first argument whose
   * type has no range predicate abandons the rule; a range predicate that
   * raises before that raises.
   */
  function Guards(ts: seq<string>): Result<Option<seq<RangePredicate>>, Error>
  {
    if ts == [] then Ok(Some([]))
    else
      var p :- RangePredicateOf(ts[0]);
      if p.None? then Ok(None)
      else
        var rest :- Guards(ts[1..]);
        match rest
        case None => Ok(None)
        case Some(gs) => Ok(Some([p.value] + gs))
  }

  /** When the guards are found there is one per argument, and it is that argument type's range predicate. */
  lemma {:induction false} GuardsMatchArguments(ts: seq<string>)
    ensures Guards(ts).Ok? && Guards(ts).value.Some? ==>
      var gs := Guards(ts).value.value;
      |gs| == |ts| && forall i :: 0 <= i < |ts| ==> RangePredicateOf(ts[i]) == Ok(Some(gs[i]))
  {
    if ts != [] && Guards(ts).Ok? && Guards(ts).value.Some? {
      GuardsMatchArguments(ts[1..]);
      GuardsFound(ts);
      var gs := Guards(ts).value.value;
      var rest := gs[1..];
      forall i | 1 <= i < |ts| ensures RangePredicateOf(ts[i]) == Ok(Some(gs[i])) {
        assert ts[i] == ts[1..][i - 1] && gs[i] == rest[i - 1];
      }
    }
  }

  /** Found guards start with the first argument's predicate, followed by the guards of the rest. */
  lemma GuardsFound(ts: seq<string>)
    requires ts != [] && Guards(ts).Ok? && Guards(ts).value.Some?
    ensures var gs := Guards(ts).value.value;
      && gs != []
      && RangePredicateOf(ts[0]) == Ok(Some(gs[0]))
      && Guards(ts[1..]) == Ok(Some(gs[1..]))
  {
    var rest := Guards(ts[1..]).value.value;
    assert ([RangePredicateOf(ts[0]).value.value] + rest)[1..] == rest;
  }

  /** `Contract.Method.rule`. */
  function RuleOf(m: Method, applicationLabel: string): Result<Option<CalldataRule>, Error>
  {
    var gs :- Guards(m.argTypes);
    match gs
    case None => Ok(None)
    case Some(g) => Ok(Some(CalldataRule(applicationLabel, MethodLabel(m), m.name, m.argNames, m.argTypes, g)))
  }

  /** When every argument's predicate is known, they are the guards. */
  lemma {:induction false} GuardsAllPresent(ts: seq<string>, gs: seq<RangePredicate>)
    requires |gs| == |ts| && forall i :: 0 <= i < |ts| ==> RangePredicateOf(ts[i]) == Ok(Some(gs[i]))
    ensures Guards(ts) == Ok(Some(gs))
  {
    if ts != [] {
      GuardsAllPresent(ts[1..], gs[1..]);
      assert [gs[0]] + gs[1..] == gs;
    }
  }

  /** The first argument without a predicate (or whose predicate raises) decides the outcome. */
  lemma {:induction false} GuardsStopAt(ts: seq<string>, k: nat)
    requires k < |ts|
    requires forall i :: 0 <= i < k ==> RangePredicateOf(ts[i]).Ok? && RangePredicateOf(ts[i]).value.Some?
    requires RangePredicateOf(ts[k]).Err? || RangePredicateOf(ts[k]) == Ok(None)
    ensures Guards(ts) == if RangePredicateOf(ts[k]).Err? then Err(RangePredicateOf(ts[k]).error) else Ok(None)
  {
    if k > 0 {
      assert RangePredicateOf(ts[0]).Ok? && RangePredicateOf(ts[0]).value.Some?;
      assert forall i :: 0 <= i < k - 1 ==> ts[1..][i] == ts[i + 1];
      assert ts[1..][k - 1] == ts[k];
      GuardsStopAt(ts[1..], k - 1);
      GuardsPassOn(ts);
    }
  }

  /** An argument with a predicate passes on an error or an abandoned rule from the rest. */
  lemma GuardsPassOn(ts: seq<string>)
    requires ts != [] && RangePredicateOf(ts[0]).Ok? && RangePredicateOf(ts[0]).value.Some?
    ensures Guards(ts[1..]).Err? ==> Guards(ts) == Guards(ts[1..])
    ensures Guards(ts[1..]) == Ok(None) ==> Guards(ts) == Ok(None)
  {
  }

  /**
   * When no argument type makes the range predicate raise, the rule is
   * abandoned exactly when some argument type has no range predicate.
   */
  lemma {:induction false} RuleAbandonedIff(ts: seq<string>)
    requires forall i :: 0 <= i < |ts| ==> RangePredicateOf(ts[i]).Ok?
    ensures Guards(ts).Ok?
    ensures Guards(ts).value.None? <==> exists i :: 0 <= i < |ts| && RangePredicateOf(ts[i]).value.None?
  {
    if ts != [] {
      assert forall i :: 0 <= i < |ts| - 1 ==> ts[1..][i] == ts[i + 1];
      RuleAbandonedIff(ts[1..]);
      if exists i :: 0 <= i < |ts| - 1 && RangePredicateOf(ts[1..][i]).value.None? {
        var i :| 0 <= i < |ts| - 1 && RangePredicateOf(ts[1..][i]).value.None?;
        assert RangePredicateOf(ts[i + 1]).value.None?;
      }
      if exists i :: 0 <= i < |ts| && RangePredicateOf(ts[i]).value.None? {
        var i :| 0 <= i < |ts| && RangePredicateOf(ts[i]).value.None?;
        if i > 0 {
          assert RangePredicateOf(ts[1..][i - 1]).value.None?;
        }
      }
    }
  }

  /** `Contract.Method.rule` as the source writes it: a loop that gives up at the first argument without a predicate. */
  method Rule(m: Method, applicationLabel: string) returns (r: Result<Option<CalldataRule>, Error>)
    ensures r == RuleOf(m, applicationLabel)
  {
    var conjuncts: seq<RangePredicate> := [];
    for i := 0 to |m.argTypes|
      invariant |conjuncts| == i
      invariant forall k :: 0 <= k < i ==> RangePredicateOf(m.argTypes[k]) == Ok(Some(conjuncts[k]))
    {
      var rp := RangePredicateOf(m.argTypes[i]);
      if rp.Err? {
        GuardsStopAt(m.argTypes, i);
        return Err(rp.error);
      }
      if rp.value.None? {
        GuardsStopAt(m.argTypes, i);
        return Ok(None);
      }
      conjuncts := conjuncts + [rp.value.value];
    }
    GuardsAllPresent(m.argTypes, conjuncts);
    return Ok(Some(CalldataRule(applicationLabel, MethodLabel(m), m.name, m.argNames, m.argTypes, conjuncts)));
  }

  // ---------------------------------------------------------------------------
  // Contract.__init__: methods

  /** The ABI entries that describe functions, in order. */
  function FunctionEntries(abi: seq<AbiEntry>): (r: seq<AbiEntry>)
    ensures |r| <= |abi|
    ensures forall e :: e in r <==> e in abi && e.entryType == "function"
  {
    if abi == [] then []
    else
      var init := FunctionEntries(abi[..|abi| - 1]);
      if abi[|abi| - 1].entryType == "function" then init + [abi[|abi| - 1]] else init
  }

  /** Filtering keeps the order: the function entries of a concatenation are those of each part, in turn. */
  lemma {:induction false} FunctionEntriesAppend(a: seq<AbiEntry>, b: seq<AbiEntry>)
    ensures FunctionEntries(a + b) == FunctionEntries(a) + FunctionEntries(b)
  {
    if b != [] {
      assert (a + b)[..|a + b| - 1] == a + b[..|b| - 1];
      FunctionEntriesAppend(a, b[..|b| - 1]);
    } else {
      assert a + b == a;
    }
  }

  /**
   * The method for one function entry: its signature, and the selector listed
   * under it, read as hexadecimal; a signature missing from the identifiers is
   * an error.
   */
  function MethodOf(e: AbiEntry, ids: map<string, string>, contractName: string): (r: Result<Method, Error>)
    ensures r.Ok? ==>
      && Signature(e) == Ok(r.value.signature)
      && r.value.signature in ids
      && ParseInt(ids[r.value.signature], 16) == Some(r.value.id)
      && r.value.name == e.name
      && r.value.contractName == contractName
      && r.value.sort == MethodSort(contractName)
    ensures r.Ok? ==> r.value == NewMethod(r.value.signature, r.value.id, e, contractName, MethodSort(contractName))
    ensures Signature(e).Err? ==> r == Err(Signature(e).error)
    ensures Signature(e).Ok? && Signature(e).value !in ids ==> r == Err(MissingSelector(Signature(e).value))
    ensures Signature(e).Ok? && Signature(e).value in ids ==>
      (r.Err? <==> ParseInt(ids[Signature(e).value], 16).None?)
  {
    var msig :- Signature(e);
    if msig !in ids then Err(MissingSelector(msig))
    else
      var mid :- ToInt(ids[msig], 16);
      Ok(NewMethod(msig, mid, e, contractName, MethodSort(contractName)))
  }

  /** The methods of the ABI in ABI order, one per function entry; the first failing entry is reported. */
  function CollectMethods(abi: seq<AbiEntry>, ids: map<string, string>, contractName: string): Result<seq<Method>, Error>
  {
    if abi == [] then Ok([])
    else
      var init :- CollectMethods(abi[..|abi| - 1], ids, contractName);
      var e := abi[|abi| - 1];
      if e.entryType != "function" then Ok(init)
      else
        var m :- MethodOf(e, ids, contractName);
        Ok(init + [m])
  }

  lemma FunctionEntriesSnoc(abi: seq<AbiEntry>)
    requires abi != []
    ensures var fp := FunctionEntries(abi[..|abi| - 1]);
      var e := abi[|abi| - 1];
      FunctionEntries(abi) == if e.entryType == "function" then fp + [e] else fp
  {
  }

  /** Collecting succeeds exactly when every function entry gives a method. */
  lemma {:induction false} CollectMethodsOk(abi: seq<AbiEntry>, ids: map<string, string>, contractName: string)
    ensures CollectMethods(abi, ids, contractName).Ok?
        <==> forall i :: 0 <= i < |FunctionEntries(abi)| ==> MethodOf(FunctionEntries(abi)[i], ids, contractName).Ok?
  {
    if abi != [] {
      var pre := abi[..|abi| - 1];
      var e := abi[|abi| - 1];
      CollectMethodsOk(pre, ids, contractName);
      FunctionEntriesSnoc(abi);
      CollectMethodsOkStep(abi, ids, contractName);
      var fp := FunctionEntries(pre);
      if e.entryType == "function" {
        AllMethodsOkSnoc(fp, e, ids, contractName);
      }
    }
  }

  /** A successful collection extends the collection of the prefix by the last entry's method, if it is a function. */
  lemma CollectMethodsOkSnoc(abi: seq<AbiEntry>, ids: map<string, string>, contractName: string)
    requires abi != [] && CollectMethods(abi, ids, contractName).Ok?
    ensures var e := abi[|abi| - 1];
      && CollectMethods(abi[..|abi| - 1], ids, contractName).Ok?
      && (e.entryType == "function" ==> MethodOf(e, ids, contractName).Ok?)
      && CollectMethods(abi, ids, contractName).value
         == CollectMethods(abi[..|abi| - 1], ids, contractName).value
            + (if e.entryType == "function" then [MethodOf(e, ids, contractName).value] else [])
  {
  }

  /** Every entry of `fs` gives a method. */
  predicate AllMethodsOk(fs: seq<AbiEntry>, ids: map<string, string>, contractName: string)
  {
    forall i :: 0 <= i < |fs| ==> MethodOf(fs[i], ids, contractName).Ok?
  }

  lemma AllMethodsOkSnoc(fs: seq<AbiEntry>, f: AbiEntry, ids: map<string, string>, contractName: string)
    ensures AllMethodsOk(fs + [f], ids, contractName) <==> AllMethodsOk(fs, ids, contractName) && MethodOf(f, ids, contractName).Ok?
  {
    var gs := fs + [f];
    assert forall i :: 0 <= i < |fs| ==> gs[i] == fs[i];
    assert gs[|fs|] == f;
  }

  /** Collecting one more entry succeeds when the prefix succeeds and the entry, if a function, gives a method. */
  lemma CollectMethodsOkStep(abi: seq<AbiEntry>, ids: map<string, string>, contractName: string)
    requires abi != []
    ensures var e := abi[|abi| - 1];
      CollectMethods(abi, ids, contractName).Ok? <==>
        (CollectMethods(abi[..|abi| - 1], ids, contractName).Ok?
         && (e.entryType == "function" ==> MethodOf(e, ids, contractName).Ok?))
  {
  }

  /** When collecting succeeds, method `i` is the one built from function entry `i`. */
  lemma {:induction false} CollectMethodsValues(abi: seq<AbiEntry>, ids: map<string, string>, contractName: string)
    requires CollectMethods(abi, ids, contractName).Ok?
    ensures var ms := CollectMethods(abi, ids, contractName).value;
      && |ms| == |FunctionEntries(abi)|
      && forall i :: 0 <= i < |ms| ==> MethodOf(FunctionEntries(abi)[i], ids, contractName) == Ok(ms[i])
  {
    if abi != [] {
      var pre := abi[..|abi| - 1];
      var e := abi[|abi| - 1];
      CollectMethodsValues(pre, ids, contractName);
      FunctionEntriesSnoc(abi);
      var fe := FunctionEntries(abi);
      var fp := FunctionEntries(pre);
      CollectMethodsOkSnoc(abi, ids, contractName);
      var ms := CollectMethods(abi, ids, contractName).value;
      var mp := CollectMethods(pre, ids, contractName).value;
      assert forall i :: 0 <= i < |fp| ==> fe[i] == fp[i];
      if e.entryType == "function" {
        assert forall i :: 0 <= i < |mp| ==> ms[i] == mp[i];
        assert fe[|fe| - 1] == e;
      }
    }
  }

  /** A function whose signature has no entry in `methodIdentifiers` makes the contract fail. */
  lemma MissingSelectorFails(abi: seq<AbiEntry>, ids: map<string, string>, contractName: string, i: nat)
    requires i < |FunctionEntries(abi)|
    requires Signature(FunctionEntries(abi)[i]).Ok? && Signature(FunctionEntries(abi)[i]).value !in ids
    ensures CollectMethods(abi, ids, contractName).Err?
  {
    CollectMethodsOk(abi, ids, contractName);
    assert MethodOf(FunctionEntries(abi)[i], ids, contractName).Err?;
  }

  /** The methods in ABI order, with signature, name and selector of each. */
  lemma MethodsFromFunctions(abi: seq<AbiEntry>, ids: map<string, string>, contractName: string, i: nat)
    requires CollectMethods(abi, ids, contractName).Ok?
    requires i < |CollectMethods(abi, ids, contractName).value|
    ensures i < |FunctionEntries(abi)|
    ensures var m := CollectMethods(abi, ids, contractName).value[i];
      var e := FunctionEntries(abi)[i];
      && Signature(e) == Ok(m.signature)
      && m.signature in ids
      && ParseInt(ids[m.signature], 16) == Some(m.id)
      && m.name == e.name
      && m.contractName == contractName
      && m.sort == MethodSort(contractName)
  {
    CollectMethodsValues(abi, ids, contractName);
  }

  /** Once a prefix of the ABI fails, the whole ABI fails with the same error. */
  lemma {:induction false} CollectMethodsPrefixError(abi: seq<AbiEntry>, ids: map<string, string>, contractName: string, k: nat)
    requires k <= |abi| && CollectMethods(abi[..k], ids, contractName).Err?
    ensures CollectMethods(abi, ids, contractName) == CollectMethods(abi[..k], ids, contractName)
    decreases |abi| - k
  {
    if k < |abi| {
      assert abi[..k + 1][..k] == abi[..k];
      CollectMethodsPrefixError(abi, ids, contractName, k + 1);
    } else {
      assert abi[..k] == abi;
    }
  }

  // ---------------------------------------------------------------------------
  // Contract.__init__: sorting by signature

  predicate SortedBySignature(ms: seq<Method>)
  {
    forall i :: 0 <= i < |ms| - 1 ==> LexLeq(ms[i].signature, ms[i + 1].signature)
  }

  /** Stable insertion: `m` goes after every method whose signature is not greater than its own. */
  function Insert(s: seq<Method>, m: Method): (r: seq<Method>)
    ensures |r| == |s| + 1
    ensures multiset(r) == multiset(s) + multiset{m}
    ensures r[|r| - 1] == m || (s != [] && r[|r| - 1] == s[|s| - 1])
  {
    if s == [] then [m]
    else if LexLeq(s[|s| - 1].signature, m.signature) then s + [m]
    else
      assert s == s[..|s| - 1] + [s[|s| - 1]];
      Insert(s[..|s| - 1], m) + [s[|s| - 1]]
  }

  lemma {:induction false} InsertSorted(s: seq<Method>, m: Method)
    requires SortedBySignature(s)
    ensures SortedBySignature(Insert(s, m))
  {
    if s != [] && !LexLeq(s[|s| - 1].signature, m.signature) {
      var pre := s[..|s| - 1];
      InsertSorted(pre, m);
      LexLeqTotal(s[|s| - 1].signature, m.signature);
      var r := Insert(pre, m);
      assert pre != [] ==> pre[|pre| - 1] == s[|s| - 2];
      assert LexLeq(r[|r| - 1].signature, s[|s| - 1].signature);
    }
  }

  /** Python's `sorted(methods, key=signature)`. */
  function SortBySignature(ms: seq<Method>): (r: seq<Method>)
    ensures multiset(r) == multiset(ms)
  {
    if ms == [] then []
    else
      assert ms == ms[..|ms| - 1] + [ms[|ms| - 1]];
      Insert(SortBySignature(ms[..|ms| - 1]), ms[|ms| - 1])
  }

  /** The sorted methods are ordered by signature and are a permutation of the collected ones. */
  lemma {:induction false} SortBySignatureSorted(ms: seq<Method>)
    ensures SortedBySignature(SortBySignature(ms))
    ensures multiset(SortBySignature(ms)) == multiset(ms)
  {
    if ms != [] {
      SortBySignatureSorted(ms[..|ms| - 1]);
      InsertSorted(SortBySignature(ms[..|ms| - 1]), ms[|ms| - 1]);
    }
  }

  // ---------------------------------------------------------------------------
  // Contract.__init__: storage fields

  /** `[(f['label'], int(f['slot'])) for f in storage]`. */
  function ParseSlots(es: seq<StorageEntry>): (r: Result<seq<(string, int)>, Error>)
    ensures r.Ok? <==> forall i :: 0 <= i < |es| ==> ParseInt(es[i].slot, 10).Some?
    ensures r.Ok? ==> |r.value| == |es| && forall i :: 0 <= i < |es| ==>
      r.value[i].0 == es[i].fieldLabel && Some(r.value[i].1) == ParseInt(es[i].slot, 10)
  {
    if es == [] then Ok([])
    else
      var s :- ToInt(es[0].slot, 10);
      var rest :- ParseSlots(es[1..]);
      assert forall i :: 1 <= i < |es| ==> es[i] == es[1..][i - 1];
      Ok([(es[0].fieldLabel, s)] + rest)
  }

  /** The field map: each label keeps the slot of its first occurrence. */
  function FirstWins(ps: seq<(string, int)>): (r: map<string, int>)
    ensures forall l :: l in r <==> exists i :: 0 <= i < |ps| && ps[i].0 == l
  {
    if ps == [] then map[]
    else
      var m := FirstWins(ps[..|ps| - 1]);
      var last := ps[|ps| - 1];
      assert forall i :: 0 <= i < |ps| - 1 ==> ps[..|ps| - 1][i] == ps[i];
      if last.0 in m then m else m[last.0 := last.1]
  }

  /** A label maps to the slot given at its first occurrence; later duplicates are skipped. */
  lemma {:induction false} FirstOccurrenceWins(ps: seq<(string, int)>, i: nat)
    requires i < |ps| && forall k :: 0 <= k < i ==> ps[k].0 != ps[i].0
    ensures ps[i].0 in FirstWins(ps) && FirstWins(ps)[ps[i].0] == ps[i].1
  {
    var pre := ps[..|ps| - 1];
    if i < |ps| - 1 {
      FirstOccurrenceWins(pre, i);
      assert pre[i] == ps[i];
    } else {
      assert forall k :: 0 <= k < |pre| ==> pre[k] == ps[k];
      assert ps[i].0 !in FirstWins(pre);
    }
  }

  /** `fields`: empty without `storageLayout.storage`, else the first slot of every label. */
  function FieldsOf(storage: Option<seq<StorageEntry>>): (r: Result<map<string, int>, Error>)
    ensures storage.None? ==> r == Ok(map[])
  {
    match storage
    case None => Ok(map[])
    case Some(es) =>
      var ps :- ParseSlots(es);
      Ok(FirstWins(ps))
  }

  /**
   * `Contract.__init__`: the bytecode without `0x`, the function entries'
   * methods sorted by signature, and the storage fields.
   */
  function ContractOf(name: string, json: ContractJson): Result<Contract, Error>
  {
    var ms :- CollectMethods(json.abi, json.methodIdentifiers, name);
    var fields :- FieldsOf(json.storage);
    Ok(Contract(name, json.id, json.absolutePath, RemoveAll(json.deployedObject, "0x"),
                json.sourceMap, SortBySignature(ms), fields))
  }

  /** What the contract description promises about its methods and fields. */
  lemma ContractProperties(name: string, json: ContractJson)
    requires ContractOf(name, json).Ok?
    ensures var c := ContractOf(name, json).value;
      && SortedBySignature(c.methods)
      && multiset(c.methods) == multiset(CollectMethods(json.abi, json.methodIdentifiers, name).value)
      && |c.methods| == |FunctionEntries(json.abi)|
      && (json.storage.None? ==> c.fields == map[])
      && (json.storage.Some? ==>
            ParseSlots(json.storage.value).Ok? && c.fields == FirstWins(ParseSlots(json.storage.value).value))
      && ('x' !in json.deployedObject ==> c.bytecode == json.deployedObject)
      && (|json.deployedObject| >= 2 && json.deployedObject[..2] == "0x" && 'x' !in json.deployedObject[2..] ==>
            c.bytecode == json.deployedObject[2..])
  {
    var d := json.deployedObject;
    if 'x' !in d {
      RemoveAllAbsent(d, "0x");
    }
    if |d| >= 2 && d[..2] == "0x" && 'x' !in d[2..] {
      assert d == "0x" + d[2..];
      RemoveAllPrefix("0x", d[2..]);
    }
    var ms := CollectMethods(json.abi, json.methodIdentifiers, name).value;
    SortBySignatureSorted(ms);
    CollectMethodsValues(json.abi, json.methodIdentifiers, name);
    assert |SortBySignature(ms)| == |multiset(SortBySignature(ms))| == |multiset(ms)| == |ms|;
  }

  /** The loop of `Contract.__init__` over the ABI entries, skipping those that are not functions. */
  method CollectMethodsLoop(abi: seq<AbiEntry>, ids: map<string, string>, name: string) returns (r: Result<seq<Method>, Error>)
    ensures r == CollectMethods(abi, ids, name)
  {
    var methods: seq<Method> := [];
    for i := 0 to |abi|
      invariant CollectMethods(abi[..i], ids, name) == Ok(methods)
    {
      var e := abi[i];
      assert abi[..i + 1][..i] == abi[..i] && abi[..i + 1][i] == e;
      if e.entryType != "function" {
        continue;
      }
      var m := MethodOf(e, ids, name);
      if m.Err? {
        CollectMethodsPrefixError(abi, ids, name, i + 1);
        return Err(m.error);
      }
      methods := methods + [m.value];
    }
    assert abi[..|abi|] == abi;
    return Ok(methods);
  }

  /** The loop of `Contract.__init__` that builds the field map, skipping labels already present. */
  method FirstWinsLoop(ps: seq<(string, int)>) returns (fields: map<string, int>)
    ensures fields == FirstWins(ps)
  {
    fields := map[];
    for i := 0 to |ps|
      invariant fields == FirstWins(ps[..i])
    {
      var (l, s) := ps[i];
      assert ps[..i + 1][..i] == ps[..i] && ps[..i + 1][i] == (l, s);
      if l in fields {
        continue;
      }
      fields := fields[l := s];
    }
    assert ps[..|ps|] == ps;
  }

  /** `Contract.__init__` as the source writes it: collect the methods, sort them, build the fields. */
  method NewContract(name: string, json: ContractJson) returns (r: Result<Contract, Error>)
    ensures r == ContractOf(name, json)
  {
    var bytecode := RemoveAll(json.deployedObject, "0x");
    var methods := CollectMethodsLoop(json.abi, json.methodIdentifiers, name);
    if methods.Err? {
      return Err(methods.error);
    }
    var sorted := SortBySignature(methods.value);
    var fields: map<string, int> := map[];
    if json.storage.Some? {
      var ps := ParseSlots(json.storage.value);
      if ps.Err? {
        return Err(ps.error);
      }
      fields := FirstWinsLoop(ps.value);
    }
    return Ok(Contract(name, json.id, json.absolutePath, bytecode, json.sourceMap, sorted, fields));
  }

  // ---------------------------------------------------------------------------
  // method_by_name

  /** The methods called `n`, in order. */
  function Named(ms: seq<Method>, n: string): (r: seq<Method>)
    ensures forall m :: m in r <==> m in ms && m.name == n
  {
    if ms == [] then []
    else (if ms[0].name == n then [ms[0]] else []) + Named(ms[1..], n)
  }

  /** `method_by_name` as written: it selects the methods called `setUp`, whatever `name` is. */
  function MethodByNameAsWritten(ms: seq<Method>, name: string): (r: Result<Option<Method>, Error>)
    ensures r.Err? <==> |Named(ms, "setUp")| > 1
    ensures r.Err? ==> r.error == MultipleMethods(name)
    ensures r == Ok(None) <==> forall m :: m in ms ==> m.name != "setUp"
    ensures r.Ok? && r.value.Some? ==> r.value.value in ms && r.value.value.name == "setUp"
  {
    var found := Named(ms, "setUp");
    assert found != [] ==> found[0] in found;
    if |found| > 1 then Err(MultipleMethods(name))
    else if found == [] then Ok(None)
    else Ok(Some(found[0]))
  }

  /** `method_by_name` as evidently intended: the method called `name`, if there is exactly one. */
  function MethodByName(ms: seq<Method>, name: string): (r: Result<Option<Method>, Error>)
    ensures r.Err? <==> |Named(ms, name)| > 1
    ensures r == Ok(None) <==> forall m :: m in ms ==> m.name != name
    ensures r.Ok? && r.value.Some? ==> r.value.value in ms && r.value.value.name == name
  {
    var found := Named(ms, name);
    assert found != [] ==> found[0] in found;
    if |found| > 1 then Err(MultipleMethods(name))
    else if found == [] then Ok(None)
    else Ok(Some(found[0]))
  }

  /** A contract whose only method is `transfer` has no method `transfer` according to the code as written. */
  lemma MethodByNameIgnoresName(m: Method)
    requires m.name == "transfer"
    ensures MethodByNameAsWritten([m], "transfer") == Ok(None)
    ensures MethodByName([m], "transfer") == Ok(Some(m))
  {
    assert [m][1..] == [];
    assert Named([m], "setUp") == [];
    assert Named([m], "transfer") == [m];
  }

  /** The two agree when the name asked for is `setUp`. */
  lemma MethodByNameAgreesOnSetUp(ms: seq<Method>)
    ensures MethodByNameAsWritten(ms, "setUp") == MethodByName(ms, "setUp")
  {
  }
}
