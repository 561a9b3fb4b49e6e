# solc_to_k: from a Solidity compiler artifact to a typed contract description

kevm-pyk turns the JSON that `solc` produces for one contract into the K
definitions KEVM uses to reason about that contract. This project models the
logic in `kevm-pyk/src/kevm_pyk/solc_to_k.py` that decides what those
definitions say, and proves what it computes:

- **ABI type classification** (`_evm_base_sort`, `_evm_base_sort_int`). Each
  ABI type string is given the K sort `Int`, `Bytes`, `String` or `K`. An
  integer type with an unsupported width raises an error.
- **Range predicates** (`_range_predicate`, `_range_predicate_uint`). These
  choose which KEVM range constructor guards an argument of a given type. The
  constructors are kept as tags.
- **Method signatures** (`method_sig_from_abi`). A function's canonical
  signature is built from its ABI entry. Tuples are rebuilt recursively from
  their components, and one array suffix is re-emitted.
- **Methods and contracts** (`Contract.Method.__init__`, `klabel`, `rule`,
  `Contract.__init__`):
  - only `function` entries become methods;
  - each selector is read from `methodIdentifiers` as hexadecimal;
  - methods are sorted by signature;
  - each argument gets a synthetic name;
  - the calldata rule is guarded by the argument predicates;
  - each storage label keeps its first slot.
- **Source maps** (`Contract.srcmap`):
  - the bytecode is read as bytes and walked one instruction at a time;
  - the compressed `s:l:f:j:m` source map (Solidity documentation, "Source
    Mappings") is expanded into one entry per segment;
  - each field left empty carries over the previous value.
- **Names** (`contract_to_module_name`, `test_to_claim_name`,
  `contract_test_to_claim_id`, `name_upper`, the sort and label names, and
  `method_by_name`).

Modules:

| module | file | contents |
|---|---|---|
| `Wrappers`, `Errors` | `wrappers.dfy` | `Option`, `Result`, and the errors the source raises |
| `PyStr` | `pystr.dfy` | the Python string and integer built-ins the source relies on |
| `AbiTypes` | `abitypes.dfy` | sort classification and range predicates |
| `Signatures` | `signatures.dfy` | `method_sig_from_abi` |
| `SourceMaps` | `sourcemaps.dfy` | `srcmap` |
| `Contracts` | `contracts.dfy` | `Contract`, `Contract.Method` and the name helpers |

Each Python exception becomes an `Err` value of `Errors.Error`, for example
`ValueError` from `int()` or from an unsupported width.

The model follows the source's own form:

- Code that works by updating variables is a `method`, proved equal to a
  specification function. `UnparseInput`, `MethodSigFromAbi`,
  `IndexInstructions` and `DecodeSourceMap` keep the source's loops.
  `CheckIntType` keeps its `success` flag, set by four independent checks.
  `NewContract` runs the two loops of `Contract.__init__` as the methods
  `CollectMethodsLoop` and `FirstWinsLoop`.
- Expression-only code is a `function`.
- The properties are `ensures` clauses and lemmas about those functions.

## Model

| member | source | states |
|---|---|---|
| PyStr.Split | kevm-pyk/src/kevm_pyk/solc_to_k.py:191 | `str.split` with one separator: one piece more than there are separators, none containing the separator; the empty string gives one empty piece |
| PyStr.SplitJoin | kevm-pyk/src/kevm_pyk/solc_to_k.py:191 | joining the pieces of a split with the separator gives back the original text |
| PyStr.ReplaceChar | kevm-pyk/src/kevm_pyk/solc_to_k.py:219 | `replace` of one character: same length, every occurrence replaced, every other character kept, none of the replaced character left |
| PyStr.RemoveAll | kevm-pyk/src/kevm_pyk/solc_to_k.py:144 | `replace(pat, '')` never lengthens the text and adds no character that was not in it |
| PyStr.RemoveAllAbsent | kevm-pyk/src/kevm_pyk/solc_to_k.py:144 | text that cannot hold the pattern's last character is left unchanged |
| PyStr.RemoveAllPrefix | kevm-pyk/src/kevm_pyk/solc_to_k.py:144 | `('0x' + h).replace('0x', '')` is `h` when `h` holds no `x` |
| PyStr.Upper | kevm-pyk/src/kevm_pyk/solc_to_k.py:212 | `upper()` on ASCII: same length, no lower-case letter left, each lower-case letter replaced by its capital, every other character kept |
| PyStr.UpperIdempotent | kevm-pyk/src/kevm_pyk/solc_to_k.py:212 | upper-casing twice is upper-casing once |
| PyStr.ToIntRoundTrip | kevm-pyk/src/kevm_pyk/solc_to_k.py:152 | `int(str(n), 10)` succeeds with `n` |
| PyStr.ToIntDigits | kevm-pyk/src/kevm_pyk/solc_to_k.py:152 | a non-empty string of digits of the base is read as its positional value |
| PyStr.ToIntRejects | kevm-pyk/src/kevm_pyk/solc_to_k.py:152 | the empty string, a lone `-` and a leading `_` raise, naming the text |
| PyStr.ToIntNegative | kevm-pyk/src/kevm_pyk/solc_to_k.py:152 | `-` followed by an unsigned literal is its negation; `-` followed by text that is not one raises |
| PyStr.ParseIntString | kevm-pyk/src/kevm_pyk/solc_to_k.py:397 | `int(str(n)) == n` for every integer, so a width written in decimal reads back as itself |
| PyStr.LexLeqTotal | kevm-pyk/src/kevm_pyk/solc_to_k.py:156 | the code-point string order used by `sorted` is total |
| AbiTypes.CheckIntType | kevm-pyk/src/kevm_pyk/solc_to_k.py:388-419 | the four flag-setting checks of `_evm_base_sort_int` return exactly what `IsIntType` says: true, false, or the raised error |
| AbiTypes.BaseSort | kevm-pyk/src/kevm_pyk/solc_to_k.py:374-385 | raises exactly when the integer check raises; `Int` exactly for integer types; `Bytes` for `bytes`; `String` for `string`; `K` exactly for the other non-integer labels |
| AbiTypes.RangePredicateUint | kevm-pyk/src/kevm_pyk/solc_to_k.py:445-452 | a label that is not a non-array `uint…` gives "no answer"; a `uintN` label never does: it gets `range_uint(N)` with `int(N)` a valid width, or raises the unsupported-predicate or the `int()` error |
| AbiTypes.RangePredicateOf | kevm-pyk/src/kevm_pyk/solc_to_k.py:422-442 | raises exactly when the `uint` check raises; each predicate returned belongs to its label: `range_uint` to a valid `uintN` or `bytes32`, `range_sint(256)` to `int256`, `range_address` to `address`, `range_bool` to `bool`, `range_bytes(4)` to `bytes4`, the size range to `bytes`, `TRUE` to `string` |
| AbiTypes.NamedPredicates | kevm-pyk/src/kevm_pyk/solc_to_k.py:426-439 | the labels listed by name get their predicates: `address` `range_address`, `bool` `range_bool`, `bytes4` `range_bytes(4)`, `bytes32` `range_uint(256)`, `int256` `range_sint(256)`, `bytes` the range of its size at 128 bits, `string` `TRUE` |
| AbiTypes.UintClassification | kevm-pyk/src/kevm_pyk/solc_to_k.py:411-417 | `uintN` is an integer type when 0 < N <= 256 and N % 8 == 0; every other N raises the unsupported-sort error |
| AbiTypes.BytesClassification | kevm-pyk/src/kevm_pyk/solc_to_k.py:395-401 | `bytesN` is an integer type for N in {4, 32}; every other N raises |
| AbiTypes.IntClassification | kevm-pyk/src/kevm_pyk/solc_to_k.py:403-409 | `intN` is an integer type for N = 256; every other N raises |
| AbiTypes.NamedIntTypes | kevm-pyk/src/kevm_pyk/solc_to_k.py:391-409 | `bytes4`, `bytes32` and `int256` are integer types |
| AbiTypes.ArraysAreNotInt | kevm-pyk/src/kevm_pyk/solc_to_k.py:388-452 | a label ending in `]` is never an integer type and has no range predicate |
| AbiTypes.UintRange | kevm-pyk/src/kevm_pyk/solc_to_k.py:445-452 | `uintN` gets `range_uint(N)` for a valid width and raises the unsupported-predicate error otherwise |
| AbiTypes.BytesWidthHasNoPredicate | kevm-pyk/src/kevm_pyk/solc_to_k.py:422-442 | `bytesN` with N not 4 or 32 has no predicate, and this is not an error |
| AbiTypes.IntWidthHasNoPredicate | kevm-pyk/src/kevm_pyk/solc_to_k.py:422-442 | `intN` with N not 256 has no predicate, and this is not an error |
| AbiTypes.OthersHaveNoPredicate | kevm-pyk/src/kevm_pyk/solc_to_k.py:422-442 | any label that is not a `uintN` and not one of `address`, `bool`, `bytes4`, `bytes32`, `int256`, `bytes`, `string` has no predicate |
| AbiTypes.PredicateAgreesWithSort | kevm-pyk/src/kevm_pyk/solc_to_k.py:374-452 | a label's predicate guards the sort the classifier gives it: integer ranges guard `Int`, the size range `Bytes`, `TRUE` `String`; a predicate that raises implies a sort that raises |
| Signatures.ReadArraySuffix | kevm-pyk/src/kevm_pyk/solc_to_k.py:457-467 | the `is_array`/`is_sized`/`array_size` flags and base type, read as `ArrayParts` describes them |
| Signatures.UnparseInput | kevm-pyk/src/kevm_pyk/solc_to_k.py:456-481 | the loop-and-recursion form of `unparse_input` computes the canonical type `Canonical`, including the first failing component's error |
| Signatures.MethodSigFromAbi | kevm-pyk/src/kevm_pyk/solc_to_k.py:483-489 | the loop form of `method_sig_from_abi` computes `name(` + the canonical inputs joined by `,` + `)` |
| Signatures.NoBracketNoArray | kevm-pyk/src/kevm_pyk/solc_to_k.py:461-467 | a type without `[` is not an array and keeps its whole text as base type |
| Signatures.ScalarVerbatim | kevm-pyk/src/kevm_pyk/solc_to_k.py:480-481 | a non-tuple type without `[` appears in the signature verbatim |
| Signatures.ArrayVerbatim | kevm-pyk/src/kevm_pyk/solc_to_k.py:461-481 | a non-tuple array type `base[m]…` (`uint256[]`, `address[2]`, `bytes32[][3]`) appears verbatim when `m` is empty or a decimal literal; any other `m`, as in `uint256[abc]`, raises the `int()` error |
| Signatures.BracketMatches | kevm-pyk/src/kevm_pyk/solc_to_k.py:461 | `base[m]rest` with a non-empty base matches the array pattern |
| Signatures.BracketSplit | kevm-pyk/src/kevm_pyk/solc_to_k.py:463-467 | splitting `base[m]rest` at `[` gives the base first and `m]` second |
| Signatures.FirstBracketParts | kevm-pyk/src/kevm_pyk/solc_to_k.py:461-467 | `base[m]rest` is a dynamic array when `m` is empty, else an array of size `int(m)`, or the `int` error |
| Signatures.SizedParts | kevm-pyk/src/kevm_pyk/solc_to_k.py:461-467 | `base[k]…` is an array of size `k` of `base` |
| Signatures.TupleWithSuffix | kevm-pyk/src/kevm_pyk/solc_to_k.py:468-479 | a tuple type is `(` + its components' canonical types joined by `,` + `)` + its suffix, or the first component error |
| Signatures.TupleCanonical | kevm-pyk/src/kevm_pyk/solc_to_k.py:468-474 | a plain tuple is its components between parentheses, in declared order, or the first component error |
| Signatures.DynamicTupleCanonical | kevm-pyk/src/kevm_pyk/solc_to_k.py:475-476 | `tuple[]` adds `[]` to the tuple text |
| Signatures.SizedTupleCanonical | kevm-pyk/src/kevm_pyk/solc_to_k.py:477-478 | `tuple[k]` adds `[k]` to the tuple text |
| Signatures.OnlyFirstDimensionKept | kevm-pyk/src/kevm_pyk/solc_to_k.py:463-478 | for `tuple[k]` followed by more brackets, only `[k]` is re-emitted: later dimensions are dropped |
| Signatures.AllDimensionsKept | kevm-pyk/src/kevm_pyk/solc_to_k.py:463-478 | the corrected canonical type of `tuple[k]rest` is the tuple followed by `[k]rest`, every dimension kept |
| Signatures.SecondDimensionDropped | kevm-pyk/src/kevm_pyk/solc_to_k.py:463-478 | `tuple[2][3]` with no components is written `()[2]`, where the corrected form gives `()[2][3]` |
| Signatures.PairTuple | kevm-pyk/src/kevm_pyk/solc_to_k.py:468-476 | a tuple of two scalar types `a`, `b` is `(a,b)`, and its dynamic array is `(a,b)[]` |
| SourceMaps.Chunks | kevm-pyk/src/kevm_pyk/solc_to_k.py:181 | the bytecode text is cut into `ceil(n / 2)` chunks |
| SourceMaps.ChunkAt | kevm-pyk/src/kevm_pyk/solc_to_k.py:181 | chunk `i` is the text `[2i, 2i + 2)`, cut at the end |
| SourceMaps.ParseBytes | kevm-pyk/src/kevm_pyk/solc_to_k.py:181 | the chunks read as bytes exactly when each is a hexadecimal literal, with those values; otherwise the error names a chunk |
| SourceMaps.HexBytesRoundTrip | kevm-pyk/src/kevm_pyk/solc_to_k.py:181 | bytes written as two hexadecimal digits each read back as the same bytes |
| SourceMaps.InstrPcs | kevm-pyk/src/kevm_pyk/solc_to_k.py:182-189 | the instruction starts from `pc` are empty exactly when `pc` is past the code, and all lie in `[pc, len)` |
| SourceMaps.InstrPcsSteps | kevm-pyk/src/kevm_pyk/solc_to_k.py:182-189 | the instruction starts begin at `pc` and increase strictly; each is the previous plus `1 + (b - 0x5F)` for a push `b`, else plus 1; the last instruction reaches the end |
| SourceMaps.IndexInstructions | kevm-pyk/src/kevm_pyk/solc_to_k.py:178-189 | the `while` loop terminates; `instr_to_pc` has keys exactly `0 .. n - 1`; key `i` holds the `i`-th instruction start; key 0 holds 0; values are below the byte length and strictly increasing |
| SourceMaps.IndexOrdered | kevm-pyk/src/kevm_pyk/solc_to_k.py:178-189 | an index that lists the instruction starts in order starts at 0, stays inside the code and increases |
| SourceMaps.NoPushEveryByte | kevm-pyk/src/kevm_pyk/solc_to_k.py:182-189 | code without push opcodes has one instruction per byte |
| SourceMaps.Push32Misindexed | kevm-pyk/src/kevm_pyk/solc_to_k.py:185 | with the bound as written, `7F 60 00` is indexed as instructions at 0 and 1, and pc 1 lies in PUSH32's data |
| SourceMaps.CorrectedBoundaries | kevm-pyk/src/kevm_pyk/solc_to_k.py:185 | with the bound `b <= 0x7F`, no instruction start lies inside an earlier push's data, for all code |
| SourceMaps.DecodeSegment | kevm-pyk/src/kevm_pyk/solc_to_k.py:195-206 | a segment decodes exactly when its present numeric fields are decimal literals; otherwise the error names one of those fields |
| SourceMaps.ReadSegment | kevm-pyk/src/kevm_pyk/solc_to_k.py:195-205 | the five field checks, in the source's order, compute `DecodeSegment` against the carried values |
| SourceMaps.DecodeSegments | kevm-pyk/src/kevm_pyk/solc_to_k.py:194-206 | the segments decode exactly when every segment is valid, giving one entry per segment |
| SourceMaps.Decode | kevm-pyk/src/kevm_pyk/solc_to_k.py:191-206 | the map decodes exactly when every `;`-segment is valid; its keys are exactly `0 .. k`, where `k` is the number of `;` |
| SourceMaps.DecodeSourceMap | kevm-pyk/src/kevm_pyk/solc_to_k.py:191-206 | the `for` loop carrying `s, l, f, j, m` computes `Decode` |
| SourceMaps.SrcMap | kevm-pyk/src/kevm_pyk/solc_to_k.py:173-208 | empty without bytecode or without a source map; otherwise succeeds exactly when the bytecode reads as bytes and the map decodes, and is then the decoded map, keyed by segment index, so `CarriedForward` and `EmptySegmentRepeats` hold of it |
| SourceMaps.SrcMapOf | kevm-pyk/src/kevm_pyk/solc_to_k.py:173-208 | `srcmap` written as statements (bytes, instruction index with the source's push bound, decoding loop) computes `SrcMap` |
| SourceMaps.LastEntryFields | kevm-pyk/src/kevm_pyk/solc_to_k.py:193-206 | after a list of segments, each field holds the last value any segment gave, or its initial value |
| SourceMaps.DecodeSegmentsPrefix | kevm-pyk/src/kevm_pyk/solc_to_k.py:194-206 | decoding a prefix of the segments gives the prefix of the entries |
| SourceMaps.CarriedForward | kevm-pyk/src/kevm_pyk/solc_to_k.py:193-206 | entry `i` holds, per field, the value of the last segment up to `i` that gives it, else `(0, 0, 0, '', 0)` |
| SourceMaps.EmptySegmentRepeats | kevm-pyk/src/kevm_pyk/solc_to_k.py:195-206 | an empty segment repeats the previous entry |
| SourceMaps.EmptySourceMap | kevm-pyk/src/kevm_pyk/solc_to_k.py:191-206 | an empty but present source map gives the single entry `0 -> (0, 0, 0, '', 0)` |
| Contracts.NameUpper | kevm-pyk/src/kevm_pyk/solc_to_k.py:226-228 | same length; the first character upper-cased and the rest unchanged |
| Contracts.NameUpperIdempotent | kevm-pyk/src/kevm_pyk/solc_to_k.py:226-228 | applying `name_upper` twice is the same as once |
| Contracts.SortsAndLabelsDistinct | kevm-pyk/src/kevm_pyk/solc_to_k.py:230-252 | a contract's three sorts are pairwise distinct, and so are its three labels |
| Contracts.KLabelsInjective | kevm-pyk/src/kevm_pyk/solc_to_k.py:242-252 | different contract names give different contract, method and field labels |
| Contracts.ContractToModuleName | kevm-pyk/src/kevm_pyk/solc_to_k.py:211-215 | the module name starts with the contract name upper-cased (`Upper`: each lower-case letter becomes its capital, every other character is kept) and ends in `-BIN-RUNTIME`, followed by `-SPEC` exactly for the specification module |
| Contracts.TestToClaimName | kevm-pyk/src/kevm_pyk/solc_to_k.py:218-219 | same length, no `_` left: each `_` becomes `-` and every other character is kept |
| Contracts.ContractTestToClaimId | kevm-pyk/src/kevm_pyk/solc_to_k.py:221-224 | raises exactly when the text does not have exactly one `.`, naming the text |
| Contracts.ClaimIdRoundTrip | kevm-pyk/src/kevm_pyk/solc_to_k.py:210-224 | for dot-free `c` and `t`, the id of `c.t` is module name `.` claim name, and splitting it at `.` gives the two back |
| Contracts.ArgName | kevm-pyk/src/kevm_pyk/solc_to_k.py:50 | a synthetic argument name never contains `-` and ends in the input's name with every `-` made `_` |
| Contracts.ArgNameInjective | kevm-pyk/src/kevm_pyk/solc_to_k.py:50 | argument names at different positions differ, whatever the inputs are called |
| Contracts.NewMethod | kevm-pyk/src/kevm_pyk/solc_to_k.py:46-55 | argument names and types follow the inputs in order, with equal lengths; name `i` is `V{i}_` + the input name with `-` made `_`; the names are distinct; payable exactly when the state mutability is `payable` |
| Contracts.MethodLabel | kevm-pyk/src/kevm_pyk/solc_to_k.py:57-60 | a method's label starts with its contract's method label and `_`; after that, when neither the name nor any type contains `_`, splitting at `_` gives the method name and then its argument types in order (one empty piece when it has none) |
| Contracts.MethodLabelsCollide | kevm-pyk/src/kevm_pyk/solc_to_k.py:57-60 | labels are not unique within a contract: `a(uint256,bool)` and `a_uint256(bool)` both get `method_{contract}_a_uint256_bool` |
| Contracts.GuardsMatchArguments | kevm-pyk/src/kevm_pyk/solc_to_k.py:88-98 | when all guards are found there is one per argument, the argument type's predicate, in argument order |
| Contracts.GuardsAllPresent | kevm-pyk/src/kevm_pyk/solc_to_k.py:88-102 | when every argument has a predicate, those predicates are the guards |
| Contracts.GuardsStopAt | kevm-pyk/src/kevm_pyk/solc_to_k.py:88-97 | the first argument without a predicate abandons the rule; a predicate that raises before that raises |
| Contracts.RuleAbandonedIff | kevm-pyk/src/kevm_pyk/solc_to_k.py:84-102 | when no predicate raises, the rule is abandoned exactly when some argument type has no predicate |
| Contracts.Rule | kevm-pyk/src/kevm_pyk/solc_to_k.py:84-102 | the loop with early return computes `RuleOf` |
| Contracts.FunctionEntries | kevm-pyk/src/kevm_pyk/solc_to_k.py:148-150 | an entry is kept exactly when it is in the ABI and its type is `function` |
| Contracts.FunctionEntriesAppend | kevm-pyk/src/kevm_pyk/solc_to_k.py:148-150 | the filter keeps ABI order: the function entries of `a + b` are those of `a`, then those of `b` |
| Contracts.MethodOf | kevm-pyk/src/kevm_pyk/solc_to_k.py:151-153 | on success the method has the entry's signature and name, that signature is listed in `methodIdentifiers` with the method's id as its hexadecimal value, and the method is the one `Method.__init__` builds from the entry (argument names and types in order, `payable` exactly for a payable entry) with the contract's method sort; a failing signature, a signature missing from `methodIdentifiers` and a value that is not hexadecimal are the errors |
| Contracts.CollectMethodsOk | kevm-pyk/src/kevm_pyk/solc_to_k.py:147-154 | collecting succeeds exactly when every function entry gives a method |
| Contracts.CollectMethodsValues | kevm-pyk/src/kevm_pyk/solc_to_k.py:147-154 | on success there is one method per function entry, and method `i` is built from entry `i` |
| Contracts.MissingSelectorFails | kevm-pyk/src/kevm_pyk/solc_to_k.py:152 | a function whose signature is missing from `methodIdentifiers` makes the contract fail |
| Contracts.MethodsFromFunctions | kevm-pyk/src/kevm_pyk/solc_to_k.py:147-154 | method `i` has entry `i`'s signature and name, the hexadecimal value listed for that signature as id, and the contract's method sort |
| Contracts.CollectMethodsLoop | kevm-pyk/src/kevm_pyk/solc_to_k.py:147-154 | the loop that skips non-functions and appends methods computes `CollectMethods` |
| Contracts.SortBySignature | kevm-pyk/src/kevm_pyk/solc_to_k.py:156 | sorting keeps the same methods (a permutation) |
| Contracts.InsertSorted | kevm-pyk/src/kevm_pyk/solc_to_k.py:156 | inserting into a sorted list keeps it sorted |
| Contracts.SortBySignatureSorted | kevm-pyk/src/kevm_pyk/solc_to_k.py:156 | the methods end up ordered by signature and are a permutation of the collected ones |
| Contracts.ParseSlots | kevm-pyk/src/kevm_pyk/solc_to_k.py:160 | the slots parse exactly when each is a decimal literal; labels and values are kept in order |
| Contracts.FirstWins | kevm-pyk/src/kevm_pyk/solc_to_k.py:161-166 | the field map's labels are exactly the labels listed |
| Contracts.FirstOccurrenceWins | kevm-pyk/src/kevm_pyk/solc_to_k.py:161-166 | a label maps to the slot of its first occurrence; later duplicates are skipped |
| Contracts.FirstWinsLoop | kevm-pyk/src/kevm_pyk/solc_to_k.py:161-166 | the loop that skips labels already present computes `FirstWins` |
| Contracts.FieldsOf | kevm-pyk/src/kevm_pyk/solc_to_k.py:158-167 | no storage layout gives no fields |
| Contracts.ContractProperties | kevm-pyk/src/kevm_pyk/solc_to_k.py:134-167 | a built contract's methods are sorted by signature, a permutation of the collected methods and one per function entry; without storage it has no fields, with storage its fields are the first slot of each parsed label; bytecode without `x` is kept unchanged, and `0x` + such bytecode loses its prefix |
| Contracts.NewContract | kevm-pyk/src/kevm_pyk/solc_to_k.py:134-167 | `Contract.__init__` written as statements computes `ContractOf` |
| Contracts.Named | kevm-pyk/src/kevm_pyk/solc_to_k.py:306 | the methods selected are exactly those with the given name |
| Contracts.MethodByNameAsWritten | kevm-pyk/src/kevm_pyk/solc_to_k.py:305-311 | as written: raises exactly when more than one method is called `setUp`; `None` exactly when none is; otherwise a method of the contract called `setUp`, whatever name was asked for |
| Contracts.MethodByNameIgnoresName | kevm-pyk/src/kevm_pyk/solc_to_k.py:306 | as written, a contract whose only method is `transfer` has no method `transfer`; the corrected lookup finds it |
| Contracts.MethodByName | kevm-pyk/src/kevm_pyk/solc_to_k.py:305-311 | raises exactly when more than one method has the name; `None` exactly when none has it; otherwise a method of the contract with that name |
| Contracts.MethodByNameAgreesOnSetUp | kevm-pyk/src/kevm_pyk/solc_to_k.py:305-311 | as written and corrected agree when the name asked for is `setUp` |

## Left out

- `solc_compile` is not part of this model: it runs the external compiler and logs its messages.
- `Contract.digest` is not part of this model: it hashes the JSON text with a foreign hash function.
- The K syntax constructions are not part of this model. These are `production`, `selector_alias_rule`, `subsort*`, `macro_bin_runtime`, `method_sentences`, `field_sentences`, `sentences`, `callvalue_cell`, `calldata_cell` and `application`. They are thin wrappers over KEVM constructors defined elsewhere.
- Logging calls are left out.
- The `__main__` command line is left out.
- The meaning of KEVM's `range_*` predicates and `size_bytes` is defined outside this file. The predicates are modelled only as tags.
- The calldata rule's K terms are not built. `CalldataRule` records the labels, names, argument types and guards that go into them.
- The artifact is a typed value holding only the fields the source reads. `KeyError` from a missing JSON key is therefore not modelled, except for a missing selector in `methodIdentifiers`.
- The `foundry` flag only selects where in the JSON the `evm` part is found. It is left out.
- `int()` is modelled for bases 10 and 16: sign, `0x` prefix and single underscores between digits. Surrounding whitespace and non-ASCII digits are left out.
- `upper()` is modelled on ASCII letters only. Strings are sequences of code points, with no case folding beyond ASCII.
- `Contract.fields` is a `map`, so the insertion order of the frozen dictionary is not kept.
- Contracts.SortBySignatureSorted: states sorted order and permutation, but not the stability of Python's `sorted` for equal signatures.
- `instr_to_pc` is built but not returned, as in the source.
- `IndexInstructions` takes its push bound as a parameter. `AsWrittenPushEnd` is the source's bound and `YellowPaperPushEnd` the corrected one.
- `NewContract` runs its two loops as the helper methods `CollectMethodsLoop` and `FirstWinsLoop`. The slot list comprehension is the function `ParseSlots`, and sorting is the function `SortBySignature`.
- The caching of `srcmap` and of other cached properties is not modelled.
- `method_by_name` works on the sorted method list of a contract.
- Contracts.MethodLabel: its contract reads the name and types back out of the label only when none of them contains `_`. With `_` the label can be ambiguous, as `MethodLabelsCollide` shows. No unambiguous label is modelled beside it, because the source gives no encoding to restore.
- `Signature`, and so `ContractOf`, keep the source's `Canonical`, so that an entry with a multi-dimensional tuple array fails with a missing selector as the source does. The corrected `CanonicalFull` stands beside it (see Findings).

## Findings

| source | as written | input that shows it | evidently intended | confidence | as-written member | corrected member |
|---|---|---|---|---|---|---|
| kevm-pyk/src/kevm_pyk/solc_to_k.py:185 | push opcodes are `0x60 <= b < 0x7F`, so PUSH32 (`0x7F`) is taken as a one-byte instruction | bytes `7F 60 00`: the data byte at pc 1 is indexed as an instruction | `0x60 <= b <= 0x7F`, PUSH1 to PUSH32 (Ethereum Yellow Paper, appendix H.2) | high; not executed | SourceMaps.Push32Misindexed | SourceMaps.CorrectedBoundaries |
| kevm-pyk/src/kevm_pyk/solc_to_k.py:463-478 | only the first array dimension of a tuple type is re-emitted | `tuple[2][3]` with no components is written `()[2]`, so the selector lookup for the function fails | every dimension kept, `()[2][3]`, as in the compiler's canonical type (Solidity Contract ABI Specification, "Handling tuple types") | high; not executed | Signatures.SecondDimensionDropped | Signatures.AllDimensionsKept |
| kevm-pyk/src/kevm_pyk/solc_to_k.py:306 | methods are filtered on the literal `'setUp'`, whatever `name` is | a contract whose only method is `transfer`, asked for `transfer`: the answer is `None` | filter on `method.name == name` | high; not executed | Contracts.MethodByNameIgnoresName | Contracts.MethodByName |

