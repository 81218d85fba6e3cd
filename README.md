# pipette: defensive navigation of decoded JSON, in Dafny

vcn/pipette wraps the result of `json_decode` in a `Value` that remembers where it sits in the document. The location is a pointer such as `$.items[2].name`. Every step and every conversion checks the node's shape. It either returns a narrower result or throws an `AssertionFailed` whose message names the pointer and the type it found.

An `OptionalValue` is the "may be absent" form. It short-circuits to null while the pointer keeps advancing.

`either` tries alternatives in turn. When all of them fail, it gathers their failures into a `ManyAssertionsFailed`, whose message shows the failures as a tree: leaf failures first, then nested aggregates, each one level deeper.

`Json::parse` recognises the literal `null` itself and hands every other source to the decoder. A JSON Schema validator renders the engine's errors into one assertion failure. `ValidatorTrait::parse` parses first and then validates.

The modules follow the source files:

| module | file | models |
|---|---|---|
| `Wrappers` | `wrappers.dfy` | `Option` |
| `Text` | `text.dfy` | `str_repeat`, `implode` and `sprintf("%d")`, plus the `\s` whitespace class |
| `Nodes` | `nodes.dfy` | the decoded node, plus `Json::prettyPrintType` and `Json::prettyPrintValue` |
| `Exceptions` | `exceptions.dfy` | the exception kinds, the `Result` of a call that may throw, and `ManyAssertionsFailed` (its sort, renderer and accessors) |
| `Values` | `values.dfy` | `Value` |
| `OptionalValues` | `optional_values.dfy` | `OptionalValue` |
| `Json` | `json.dfy` | `Json::parse` and `Json::pretend` |
| `Validators` | `validators.dfy` | `JsonSchema::validate` and `ValidatorTrait::parse` |

A call that may throw returns `Result<T>`:
- `Ok(value)` for a normal return.
- `Fail(failure)` for an `AssertionFailed`. It is a `Leaf`, or a `Many` for a `ManyAssertionsFailed`.
- `Raise(error)` for any other throwable.

Callbacks are functions `Value -> Result<T>`, so whatever a callback throws is part of the model.

A PHP `null` result of a `¿` method is `None` inside `Ok`.

`Value` and `SchemaError` are immutable values in the source, so they are datatypes.

The source updates state step by step in these places, so each one is a method with a loop:
- the `foreach` of `arrayMapWithIndex` and `objectMapWithIndex`;
- the alternatives loop of `either`;
- the error loop of `JsonSchema::validate`;
- the `usort` inside `formatMessage`, which is an in-place sort of an array.

Each method is proved equal to a specification function. The properties are proved about those functions.

`json_decode`, `json_encode` and the JSON Schema engine are function parameters. So are the callbacks.

## Model

| member | source | states |
|---|---|---|
| Nodes.TypeName | src/Json.php:77-103 | the type word is one of the eight names, and each word is given exactly for its kind of node |
| Nodes.PrettyPrintValue | src/Json.php:105-133 | a string is shown in double quotes, in full up to 30 code points, otherwise its first 30 followed by " ..." (36 characters in all); a number is shown in decimal; anything else by its type word |
| Text.NatToStringRoundTrip | src/Json/Value.php:113-118 | the decimal rendering used in `[n]` pointers is non-empty, all digits, has no leading zero, and reads back to the number |
| Text.IntToStringRoundTrip | src/Json.php:120-121 | the `%d`/number rendering is digits with a leading minus sign exactly for negative numbers, and reads back to the number |
| Text.JoinIsPrefixed | src/Json/Validators/JsonSchema.php:64-79 | a separator followed by the `implode` of a non-empty list is every part preceded by the separator |
| Nodes.LookupFinds | src/Json/Value.php:50-63 | in an object with distinct names, the field looked up under a name is the one stored under it |
| Values.MakeOptional | src/Json/OptionalValue.php:35-39 | the constructor keeps the pointer; the state is absent exactly for PHP null or a null `Value`, and otherwise it is the given value |
| Values.PredicatesMatchTypeNames | src/Json/Value.php:125-128 | each `is*` predicate holds exactly when the node's type word is the matching one (`isBool` for "true" or "false") |
| Values.HasField | src/Json/Value.php:138-151 | it answers exactly for objects, and then it says whether the field exists; on any other node it fails with "Expected P to be an object, T given." |
| Values.HasNth | src/Json/Value.php:161-174 | it answers exactly for arrays, and then it says whether `0 <= n < length`; on any other node it fails with the "an array" message |
| Values.Field | src/Json/Value.php:50-63 | a non-object fails as `hasField` does; a missing field fails with "Expected P.name to be present, none given."; otherwise it gives the field's node at pointer `P.name` |
| Values.Nth | src/Json/Value.php:89-102 | a non-array fails; an index out of range (a negative one included) fails with "Expected P[n] to be present, none given."; otherwise it gives the element at `P[n]` |
| Values.MaybeField | src/Json/Value.php:74-79 | a missing field gives the absent state at `P.name`; a present one gives the strict child, normalised; a non-object fails, and a null `Value` counts as a non-object |
| Values.MaybeNth | src/Json/Value.php:113-118 | a missing index gives the absent state at `P[n]`; a present one gives the strict element, normalised; a non-array fails |
| Values.NavigatePointer | src/Json/Value.php:50-102 | a chain of `field`/`nth` calls that succeeds ends at the pointer its steps spell out, and no such chain throws anything but an `AssertionFailed` |
| Values.AsInt | src/Json/Value.php:393-406 | it succeeds exactly on a number and returns it; otherwise it fails with "Expected P to be a number, T given." |
| Values.AsString | src/Json/Value.php:476-489 | it succeeds exactly on a string and returns it; otherwise it fails with the "a string" message |
| Values.AsBool | src/Json/Value.php:725-738 | it succeeds exactly on a boolean and returns it; otherwise it fails with "true or false" |
| Values.AsTrue | src/Json/Value.php:771-784 | it succeeds exactly on `true` and returns true; otherwise it fails with "true" |
| Values.AsFalse | src/Json/Value.php:817-830 | it succeeds exactly on `false` and returns false; otherwise it fails with "false" |
| Values.AsNull | src/Json/Value.php:863-876 | it returns exactly on null; otherwise it fails with "null" |
| Values.OrNull | src/Json/Value.php:415-422 | the shared pattern of the `¿` terminals: null on a null node, otherwise the strict outcome |
| Values.NullableTerminal | src/Json/Value.php:746-753 | a `¿` terminal gives null exactly on a null node, gives `x` exactly when the strict conversion does, and otherwise rethrows the strict failure |
| Values.StrictTerminalsRejectNull | src/Json/Value.php:497-504 | no strict conversion except `null` accepts a null node, so every `¿int`/`¿string`/`¿bool`/`¿true`/`¿false` gives null on it |
| Values.Enum | src/Json/Value.php:599-655 | a non-string fails as `string` does; an empty enumeration gives the "no enumeration constants" failure; a string succeeds exactly when it names a constant; otherwise one aggregate holds one failure per constant, in declaration order |
| Values.MappedArrayMeaning | src/Json/Value.php:231-250 | `arrayMapWithIndex` fails on a non-array; it succeeds exactly when every call does, with one result per element in order, each called with its index and `P[i]`; otherwise it rethrows the first call's throwable |
| Values.ArrayMapWithIndex | src/Json/Value.php:231-250 | the `foreach` loop gives exactly the outcome described by `MappedArray` |
| Values.IgnoreKey | src/Json/Value.php:188-195 | the wrapped callback ignores the index or key and agrees with the original on the value |
| Values.ArrayMap | src/Json/Value.php:188-195 | `arrayMap` is `arrayMapWithIndex` with a callback that ignores the index |
| Values.MaybeArrayMapWithIndex | src/Json/Value.php:266-273 | null on a null node, without calling back; otherwise the outcome of `arrayMapWithIndex` |
| Values.MaybeArrayMap | src/Json/Value.php:210-217 | null on a null node; otherwise the outcome of `arrayMap` |
| Values.Keyed | src/Json/Value.php:343-362 | a callback's result is paired with its key, and its throwable passes through unchanged |
| Values.MappedObjectMeaning | src/Json/Value.php:343-362 | `objectMapWithIndex` fails on a non-object; it succeeds exactly when every call does, keeping exactly the original keys in their order, each with its callback's result at `P.key`; otherwise it rethrows the first call's throwable |
| Values.ObjectMapWithIndex | src/Json/Value.php:343-362 | the `foreach` loop gives exactly the outcome described by `MappedObject` |
| Values.ObjectMap | src/Json/Value.php:298-305 | `objectMap` is `objectMapWithIndex` with a callback that ignores the key |
| Values.MaybeObjectMapWithIndex | src/Json/Value.php:378-385 | null on a null node, without calling back; otherwise the outcome of `objectMapWithIndex` |
| Values.MaybeObjectMap | src/Json/Value.php:321-328 | null on a null node; otherwise the outcome of `objectMap` |
| Values.Apply | src/Json/Value.php:900-909 | whatever the callback returns or throws is returned or rethrown unchanged |
| Values.MaybeApply | src/Json/Value.php:923-932 | null on a null node, without calling back; otherwise the callback's outcome |
| Values.EitherFirstDecides | src/Json/Value.php:949-965 | the first alternative, in call order, that does not throw an `AssertionFailed` decides: its value is returned, or its other throwable escapes and the rest are not consulted |
| Values.EitherAllFail | src/Json/Value.php:949-965 | when every alternative fails, one aggregate is thrown whose head is the first failure and whose tail is the others, in call order |
| Values.Either | src/Json/Value.php:949-965 | the loop over `[f, g, ...hs]` gives exactly the outcome described by `EitherOutcome` |
| Values.MaybeEither | src/Json/Value.php:982-985 | null on a null node; otherwise the outcome of `either`, an aggregate when all alternatives fail |
| Values.Encode | src/Json/Value.php:1001-1013 | it never fails an assertion; it succeeds exactly when the encoder returns text, and returns that text; when the encoder returns `false` it raises `CantEncode` with the encoder's message and code; a throw of the encoder escapes unchanged |
| Values.PrettyPrint | src/Json/Value.php:1042-1045 | `prettyPrint` is `encode` with `JSON_PRETTY_PRINT` (128) |
| Values.Validate | src/Json/Value.php:1078-1083 | it returns the same value exactly when the validator accepts it; otherwise it rethrows what the validator threw |
| OptionalValues.Present | src/Json/OptionalValue.php:35-39 | a present `OptionalValue` never wraps a null `Value` |
| OptionalValues.Absent | src/Json/OptionalValue.php:50-59 | an absent `OptionalValue` sits at the pointer it was given |
| OptionalValues.ConstructorNormalises | src/Json/OptionalValue.php:35-39 | the state is absent exactly when the constructor got PHP null or a null `Value`; otherwise it wraps the given value |
| OptionalValues.MaybeField | src/Json/OptionalValue.php:50-59 | when absent, absent at `P.name`; when present, the wrapped value's `¿field` |
| OptionalValues.MaybeNth | src/Json/OptionalValue.php:70-79 | when absent, absent at `P[n]`; when present, the wrapped value's `¿nth` |
| OptionalValues.AbsentChain | src/Json/OptionalValue.php:50-79 | from the absent state every chain of steps succeeds, stays absent, and spells its steps into the pointer |
| OptionalValues.StepKeepsCoherence | src/Json/OptionalValue.php:50-79 | every step from a coherent `OptionalValue` gives a coherent one at the extended pointer; coherent means a present value's pointer is the `OptionalValue`'s own |
| OptionalValues.ChainPointer | src/Json/OptionalValue.php:50-79 | a chain that succeeds from a coherent `OptionalValue` ends coherent, at the pointer its steps spell out |
| OptionalValues.PredicatesPartition | src/Json/OptionalValue.php:86-89 | no type predicate holds on the absent state; one holds on any present JSON node; `isBool` is `isTrue` or `isFalse` |
| OptionalValues.TerminalsDelegate | src/Json/OptionalValue.php:208-429 | each `¿` terminal gives null exactly when absent, succeeds on a present value exactly when the matching type predicate holds, and otherwise fails at the present value's pointer |
| OptionalValues.Null | src/Json/OptionalValue.php:447-454 | `null` returns exactly when the state is absent; a present value is never null, so it then always fails with the "null" message |
| OptionalValues.MaybeArrayMapWithIndex | src/Json/OptionalValue.php:132-139 | null when absent, without calling back; otherwise the wrapped value's `arrayMapWithIndex` |
| OptionalValues.MaybeArrayMap | src/Json/OptionalValue.php:106-113 | null when absent; otherwise the wrapped value's `arrayMap` |
| OptionalValues.MaybeObjectMapWithIndex | src/Json/OptionalValue.php:192-199 | null when absent, without calling back; otherwise the wrapped value's `objectMapWithIndex` |
| OptionalValues.MaybeObjectMap | src/Json/OptionalValue.php:167-174 | null when absent; otherwise the wrapped value's `objectMap` |
| OptionalValues.MaybeApply | src/Json/OptionalValue.php:480-489 | null when absent, without calling back; otherwise the callback's outcome on the wrapped value |
| OptionalValues.MaybeEither | src/Json/OptionalValue.php:507-510 | null when absent; otherwise the wrapped value's `either` |
| OptionalValues.PresentAgreesWithValue | src/Json/OptionalValue.php:372-429 | a present `OptionalValue` behaves as the non-null `Value` it wraps, for `¿apply` and every `¿` terminal |
| OptionalValues.Encode | src/Json/OptionalValue.php:526-529 | the literal `null` when absent, without calling the encoder; otherwise the wrapped value's `encode` |
| OptionalValues.MaybeEncode | src/Json/OptionalValue.php:545-548 | null when absent; otherwise the outcome of `encode` |
| OptionalValues.PrettyPrint | src/Json/OptionalValue.php:558-561 | the literal `null` when absent; otherwise the wrapped value's `prettyPrint` |
| OptionalValues.MaybePrettyPrint | src/Json/OptionalValue.php:571-574 | null when absent; otherwise the outcome of `prettyPrint` |
| OptionalValues.AbsentShortCircuits | src/Json/OptionalValue.php:461-574 | the absent state short-circuits everything: no predicate holds, every `¿` form gives null whatever the callbacks, `null` returns, and encoding gives `null` whatever the encoder |
| Exceptions.Propagate | src/Json/Value.php:244-247 | a rethrow keeps the kind of throwable and what it carries |
| Exceptions.CollectOk | src/Json/Value.php:244-247 | running calls in order succeeds exactly when every call does, with their values in order |
| Exceptions.CollectFirstError | src/Json/Value.php:244-247 | otherwise the outcome is the first throwing call's throwable |
| Exceptions.LeavesFirstPermutation | src/Json/Exception/ManyAssertionsFailed.php:72-83 | the usort's reordering is a permutation of the failures |
| Exceptions.LeavesFirstOrdered | src/Json/Exception/ManyAssertionsFailed.php:72-83 | after sorting, no aggregate precedes a leaf |
| Exceptions.LeavesFirstStable | src/Json/Exception/ManyAssertionsFailed.php:72-83 | the leaves keep their relative order, and so do the aggregates, because PHP 8's sort is stable |
| Exceptions.LeavesFirstUnique | src/Json/Exception/ManyAssertionsFailed.php:72-83 | any ordered, stable rearrangement of the failures equals this one, so the comparator determines the order |
| Exceptions.SortLeavesFirst | src/Json/Exception/ManyAssertionsFailed.php:72-83 | the in-place sort of the array leaves it as `LeavesFirst` of its old contents |
| Exceptions.InsertAt | src/Json/Exception/ManyAssertionsFailed.php:72-83 | moving one element left inside the array gives the list `Inserted` describes |
| Exceptions.FromFailedAssertionsKeepsOrder | src/Json/Exception/ManyAssertionsFailed.php:47-56 | a built aggregate keeps its failures in construction order (unsorted) and unconses to exactly its arguments; its previous exception is the last failure, and its message is the level-0 rendering |
| Exceptions.LinesMatchChildren | src/Json/Exception/ManyAssertionsFailed.php:89-107 | there is one rendered line per child, in order, and each line is that child's bullet |
| Exceptions.FormatMessageLayout | src/Json/Exception/ManyAssertionsFailed.php:85-109 | the rendering is the header (indentation, a bullet below level 0, "Expected any of the following:") followed by the children's lines joined by newlines, leaves first |
| Exceptions.BulletIgnoresStoredMessage | src/Json/Exception/ManyAssertionsFailed.php:92-101 | a nested aggregate is re-rendered from its own failures; the message and previous exception it was built with do not matter |
| Exceptions.RenderingIgnoresInterleaving | src/Json/Exception/ManyAssertionsFailed.php:72-83 | two argument lists with the same leaves in the same order and the same aggregates in the same order render alike |
| Exceptions.LeafAndAggregateInEitherOrder | src/Json/Exception/ManyAssertionsFailed.php:72-83 | a leaf and an aggregate render alike in either argument order |
| Exceptions.TwoLeaves | src/Json/Exception/ManyAssertionsFailed.php:85-109 | two leaves render as the header and two bullet lines at the next indentation |
| Exceptions.LeafThenAggregate | src/Json/Exception/ManyAssertionsFailed.php:85-109 | a leaf and an aggregate render as the leaf's bullet, then the aggregate's block one level deeper |
| Exceptions.FlatExample | src/Json/Exception/ManyAssertionsFailed.php:47-56 | two leaf failures give the expected two-line message of the library's own example |
| Exceptions.NestedExample | src/Json/Exception/ManyAssertionsFailed.php:47-56 | an aggregate nested with a leaf, in either order, gives the expected indented message of the library's own example |
| Json.Pretend | src/Json.php:60-64 | any node becomes the document root at pointer `$` |
| Json.NullLiteralMeaning | src/Json.php:28-30 | the regex test holds exactly for the word `null` with only whitespace before and after |
| Json.NullSpellings | src/Json.php:28-30 | `null` with a space, tab or newline on either side is recognised; `NULL`, `nul`, `null x`, `[null]` and the empty source are not |
| Json.Parse | src/Json.php:26-42 | the null literal gives the root null without decoding; a throw of the decoder escapes unchanged; a null decoding raises `CantDecode` with the decoder's message and code; otherwise it gives the decoded node as the root |
| Json.ParseOutcomes | src/Json.php:26-42 | parsing never throws an `AssertionFailed`; a parsed value is at `$`; it is null exactly for the null literal; when the decoder returns, the only throwable is `CantDecode`, and otherwise it is what the decoder threw |
| Json.NullLiteralBypassesDecoder | src/Json.php:28-30 | for the null literal the outcome does not depend on the decoder |
| Validators.ErrorLine | src/Json/Validators/JsonSchema.php:52-58 | an error reads `$ : message` at the root and `$.property : message` below it; the line starts with `$` and ends with ` : message` |
| Validators.ErrorLines | src/Json/Validators/JsonSchema.php:52-58 | one line per error, in the engine's order |
| Validators.Dotted | src/Json/Validators/JsonSchema.php:70-75 | every line gets a full stop appended |
| Validators.Verdict | src/Json/Validators/JsonSchema.php:60-79 | no lines means valid; one line gives "JSON Schema violation at L."; more give "JSON Schema violations:" followed by each line on its own line, indented four spaces and ending in a full stop; the verdict never raises |
| Validators.SchemaOutcomeMeaning | src/Json/Validators/JsonSchema.php:38-80 | a value is valid exactly when the engine reports no errors; it raises exactly when the engine throws, as `Runtime` with the same message and the original as cause; several errors are listed one per line |
| Validators.RootViolation | src/Json/Validators/JsonSchema.php:60-62 | a single root error gives "JSON Schema violation at $ : message." |
| Validators.ThreeRootViolations | src/Json/Validators/JsonSchema.php:64-79 | three root errors give the heading followed by three indented lines, in the engine's order |
| Validators.Validate | src/Json/Validators/JsonSchema.php:38-80 | the method with its error loop gives exactly the outcome described by `SchemaOutcome` |
| Validators.ParseValidatedMeaning | src/Json/Validators/ValidatorTrait.php:35-42 | `parse` succeeds exactly when parsing does and the validator accepts the value, and it then returns the parsed value; otherwise it rethrows what parsing or validation threw |
| Validators.AcceptingValidatorIsParse | src/Json/Validators/ValidatorTrait.php:35-42 | with a validator that accepts everything it is `Json::parse` |
| Validators.SchemaParseFails | src/Json/Validators/ValidatorTrait.php:35-42 | with a JSON Schema validator, `parse` fails an assertion exactly when the source decodes and the engine reports errors about it |

Where the documentation and the code disagree, the model follows the code:
- `Value::¿either` is documented to rethrow the last `AssertionFailed`, but it delegates to `either`, which throws the aggregate.
- `Value::¿field` and `Value::¿nth` on a null `Value` fail through `hasField`/`hasNth`, since null is not an object or an array. `OptionalValue` is where null short-circuits.

## Left out

- Floating-point numbers, `float` and `¿float`: numbers are unbounded integers, so `int()`'s truncating cast of a float is not modelled.
- `date`, `dateTime`, `¿date`, `¿dateTime` and `¿timestamp`: they depend on PHP's date parsing and time zones.
- `base64` and `¿base64`: the decoding of base64 text is not part of this model.
- Values.Enum: the enumeration class is an explicit list of constant names. The `Runtime` errors for a class that does not exist or has the wrong parent, and native `BackedEnum` cases, are not modelled, because they depend on reflection.
- `json_decode`, `json_encode` and the JSON Schema engine are parameters. Depth limits, option flags and big-integer handling are whatever the parameter does. The decoder and the encoder may also throw (a `JsonException` under `JSON_THROW_ON_ERROR`, a `ValueError` for a depth below 1); the model passes that throwable through unchanged, as the source does, without saying which options cause it.
- Decoded objects may hold a duplicated field name, which no PHP `stdClass` can. On such an object the model's lookup takes the first field of that name, and the object maps keep both entries where the PHP array would keep only the last. The properties about lookup are stated for objects with distinct names.
- Validators.Validate: the engine is a function of the node and the schema reference. So `reset()` before each run is implicit, and a throw from `getErrors()` is not modelled.
- `JsonSchema::getValidator` and `getRef` are the datatype's fields. `Value::mixed` and `getPointer` are the fields of `Value`. `jsonSerialize` hands the node to the encoder and is not modelled separately.
- `Json::validating`, `ValidatingJson` and `JsonSchemaRepository` are not part of this model.
- PHP arrays with non-sequential keys, and the conversion of numeric-string object keys to integers, are not modelled. Arrays are lists and object keys are strings.
- The number of times a callback is invoked is not modelled. Callbacks are pure functions, so "not called" appears only as an outcome that does not depend on them.
- Strings are sequences of code points, so `mb_strlen` and byte strings are not distinguished.
- Exceptions.SortLeavesFirst: PHP 8's `usort` is assumed (a stable sort). Earlier PHP versions may order equal elements differently.
- The integer `code` of `ManyAssertionsFailed` (always 0) and of `Runtime` (0 here) is not kept.
