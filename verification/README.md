# eArc parameter transformer — a Dafny model

eArc's parameter transformer turns loosely typed request input (a PHP array
keyed by names and by positions) into typed values. It works on three
targets:

- a single parameter or property, through `ArgumentTransformer::transform`;
- the full argument vector of a callable or constructor, through
  `CallableTransformer::callableTransform`;
- the public setters and properties of a live object, through
  `ObjectTransformer::objectTransform`.

The older standalone `ParameterTransformer::transform` does the same job
for callables with a simpler lookup.

One Dafny module per source class:

| module | models |
|---|---|
| `Configuration` | the policy object: mapping table, predefined values, phase order, parameter ceiling, null and no-input flags, and its fluent setters |
| `InputProvider` | the per-call input cursor: the entry map, the positional cursor, the pending consumption and the backup / restore pair |
| `ArgumentTransformer` | one slot: lookup, ordered type candidates, default fallback, null policy, commit |
| `CallableTransformer` | the parameter binding loop over a read-only input, and the reflection dispatch (callable string with `::`, `[class, method]`, invokable object, class name) |
| `ObjectTransformer` | the string-keyed pool, `getMethods` (filter and stable sort by parameter count), the method and property phases, and the early stop on an empty pool |
| `ParameterTransformer` | the older resolver: renaming by name or position, lookup, and the break/isset candidate loop |

Shared modules:

- `Wrappers`: `Option` and `Result`.
- `PhpValues`: keys, values and the `(int)`, `(bool)`, `(float)` and `(string)` casts.
- `PhpArray`: an ordered PHP array with `$a[$k] = $v`.
- `Reflection`: slot metadata, the class table and the collaborator hooks.
- `Coercion`: the candidate rules the newer and older resolvers share, and the first-decisive selection.
- `Scenarios`: concrete cases from the repository's tests, stated as lemmas.

The central rule is stated once (`Coercion.FirstDecisive`). The first
candidate, in declared order, that throws or yields a non-null value not
identical to the raw input decides. When none decides, the raw input
stands; a null input is replaced by the slot's default, or by null when
there is no default. The newer resolver's early-return loop is proved equal
to it (`ArgumentTransformer.ResolveCandidates`), and so is the older
resolver's `break`/`isset` loop (`ParameterTransformer.LegacyAgreesWithFirstDecisive`).

Effects are returned as values:

- Provider operations return the new provider.
- Hydration returns the assigned properties and the list of method invocations (`ObjectTransformer.Hydrated`).
- Failures are `Result` errors, named after the PHP exception they stand for.

A PHP engine `Error` or `TypeError` is `EngineError`.

## Model

| member | source | states |
|---|---|---|
| PhpValues.ToInt | src/PrivateServices/ArgumentTransformer.php:97 | `(int)` keeps integers, maps null to 0, booleans to 1/0, an array to 0 exactly when it is empty and an object to 1, and a string to its saturated leading integer (`LeadingInt`) |
| PhpValues.LeadingInt | src/PrivateServices/ArgumentTransformer.php:97 | the integer cast of any string saturates into the 64-bit range |
| PhpValues.LeadingIntOfNumeral | src/PrivateServices/ArgumentTransformer.php:97 | round trip: `(int)` of the decimal numeral of any 64-bit integer, followed by any non-digit text, is that integer |
| PhpValues.DigitsValueOfNatToString | src/PrivateServices/ArgumentTransformer.php:97-100 | the decimal numeral `(string)` writes for a natural number reads back as that number |
| PhpValues.ToBool | src/PrivateServices/ArgumentTransformer.php:98 | truthiness: a string is true exactly when it is neither "" nor "0", an integer exactly when non-zero, an array exactly when non-empty; a boolean is itself, null is false, an object true |
| PhpValues.ToFloat | src/PrivateServices/ArgumentTransformer.php:99 | `(float)` always gives a float and leaves a float unchanged |
| PhpValues.ToString | src/PrivateServices/ArgumentTransformer.php:100 | `(string)` fails exactly on an object; a string is unchanged, null becomes "", an integer its decimal numeral, true "1" and false "", an array "Array" |
| PhpValues.IntCastOfStringCast | src/PrivateServices/ArgumentTransformer.php:97-100 | `(int)` of `(string)` gives back every 64-bit integer |
| PhpValues.IntCastOfLeadingNumber | tests/TestParameterTransformer.php:164-167 | "23 times bla bla" casts to 23 |
| PhpArray.Lookup | src/PrivateServices/CallableTransformer.php:47-68 | a key is found exactly when it is one of the array's keys, and the value found is stored under it |
| PhpArray.Put | src/PrivateServices/CallableTransformer.php:68 | assigning an existing key keeps the key order; a new key is appended at the end |
| PhpArray.LookupPut | src/PrivateServices/CallableTransformer.php:68 | after `$a[$k] = $v`, `$k` reads `$v` and every other key reads what it read before |
| PhpArray.PutKeepsUnique | src/ParameterTransformer.php:91 | assignment never duplicates a key |
| Configuration.Default | src/Configuration.php:21-32 | the field defaults: empty tables, methods first, public filters, ceiling 1, null allowed, missing input not allowed, property transformation on |
| Configuration.GetMapped | src/Configuration.php:48-51 | the mapping entry for a mapped key, the key itself otherwise; a position is returned as a key (the intended lookup, see Findings) |
| Configuration.GetMappedAsWrittenOnNames | src/Configuration.php:48-51 | the declared and the intended lookup agree exactly when the entry is a name |
| Configuration.GetMappedAsWritten | src/Configuration.php:48-51 | as declared (`: string` under strict typing): a TypeError exactly when the entry is a position; otherwise the same name as the intended lookup |
| Configuration.Predefined | src/Configuration.php:60-68 | a predefined value exists exactly for the table's keys and is the table's entry |
| Configuration.Apply | src/Configuration.php:53-159 | a setter's own field reads back the written value; every other field is unchanged |
| Configuration.UntouchedFieldKeepsValue | src/Configuration.php:53-159 | a field that no setter in a chain writes keeps its value through the whole chain |
| Reflection.MapSpecialName | src/PrivateServices/ArgumentTransformer.php:151-166 | `parent` names the declaring class's parent and `self` the declaring class, when they exist; without them each stays as written; no other name changes |
| Reflection.MapSpecialNameIdempotent | src/PrivateServices/ArgumentTransformer.php:151-166 | since no class may be called `self` or `parent`, mapping an already mapped name changes nothing |
| Coercion.NullLiteral | src/PrivateServices/ArgumentTransformer.php:81-83 | the text 'null' becomes null exactly for a candidate that admits null; every other value, and 'null' for a candidate that does not admit it, passes unchanged |
| Coercion.CastBuiltin | src/PrivateServices/ArgumentTransformer.php:95-102 | `int`/`integer`, `bool`/`boolean`, `float`/`double`/`real` and `string` give exactly the matching cast (never null), other builtins pass the value through, and only `string` of an object fails |
| Coercion.ScalarCastWinsWhenItChanges | src/PrivateServices/ArgumentTransformer.php:60 | `Wins`, the test `!is_null($newValue) && $newValue !== $value`: a scalar cast never gives null, so it wins exactly when it changes the value |
| Coercion.FirstDecisive | src/PrivateServices/ArgumentTransformer.php:57-63 | None exactly when no result decides; otherwise a deciding result with no deciding result before it |
| Coercion.FirstDecisiveAt | src/PrivateServices/ArgumentTransformer.php:57-63 | a deciding result preceded only by non-deciding ones is the one selected |
| Coercion.Fallback | src/PrivateServices/ArgumentTransformer.php:65-73 | a non-null raw value stands; a null one becomes the default, or null without a default |
| InputProvider.New | src/PrivateServices/InputProvider.php:24-33 | a provider starts with the given input, an empty backup, cursor 0 and nothing pending |
| InputProvider.Locate | src/PrivateServices/InputProvider.php:52-62 | the three-way lookup order: by name, else exactly at the cursor, else nowhere |
| InputProvider.InputIsEmpty | src/PrivateServices/InputProvider.php:40-43 | empty exactly when no key is present |
| InputProvider.GetInput | src/PrivateServices/InputProvider.php:48-65 | by mapped name (the unmapped key pending), else at the cursor (the cursor pending), else null or NoInputException by policy; nothing but the pending marker changes |
| InputProvider.DeleteLastInput | src/PrivateServices/InputProvider.php:67-82 | a pending present string key moves its entry to the backup; a pending position advances the cursor by one; anything else is a no-op |
| InputProvider.InitBackup | src/PrivateServices/InputProvider.php:84-88 | an empty backup and the cursor recorded as the restore point, nothing else changed |
| InputProvider.RestoreBackup | src/PrivateServices/InputProvider.php:90-99 | cursor back to the restore point, backed-up entries put back over the input, backup emptied; the configuration, the restore point and the pending key are kept |
| InputProvider.PerformKeepsRestorable | src/PrivateServices/InputProvider.php:67-82 | a lookup or commit keeps the input and backup disjoint, with their union equal to the input at the restore point |
| InputProvider.PerformAllKeepsRestorable | src/PrivateServices/InputProvider.php:48-82 | any sequence of lookups and commits keeps that invariant |
| InputProvider.Rollback | src/PrivateServices/InputProvider.php:84-99 | after `initBackup`, any lookups and commits are undone by `restoreBackup`: same input, same cursor, empty backup |
| InputProvider.PositionalGapEndsSupply | src/PrivateServices/InputProvider.php:56-64 | with no entry at the cursor, later positions are never reached |
| ArgumentTransformer.ServiceChain | src/PrivateServices/ArgumentTransformer.php:123-145 | services are tried in registration order and the first one that does not pass decides: DiException when it does not implement the interface, its truthy build when that is an instance of the class, else FactoryException; when every service builds a falsy value the raw value stands |
| ArgumentTransformer.TransformViaClassName | src/PrivateServices/ArgumentTransformer.php:117-146 | a self-constructing class builds the value itself; any other class goes to the factory services |
| ArgumentTransformer.TransformViaNamedType | src/PrivateServices/ArgumentTransformer.php:105-111 | a raw value that is not a string is a TypeError at `hasPredefinedValue(string)`; a string with a predefined value gets it; then the class rule for a known class (after `self`/`parent` mapping); otherwise the value is unchanged |
| ArgumentTransformer.TransformViaType | src/PrivateServices/ArgumentTransformer.php:79-86 | an untyped slot's null type is a TypeError for every value; otherwise the 'null' literal rule, then the builtin cast, the named-type rule, or the value unchanged for an intersection type; only engine, DI or factory errors |
| ArgumentTransformer.CandidateResults | src/PrivateServices/ArgumentTransformer.php:55-58 | one result per candidate, in declared order |
| ArgumentTransformer.ResolveCandidates | src/PrivateServices/ArgumentTransformer.php:57-73 | the early-return loop equals the first-decisive selection over all candidate results, settled with the fallback |
| ArgumentTransformer.ResolveRaw | src/PrivateServices/ArgumentTransformer.php:54-73 | the first deciding candidate's result, else the fallback value |
| ArgumentTransformer.UntypedSlotRejectsEveryValue | src/PrivateServices/ArgumentTransformer.php:54-58 | a parameter or property without a declared type fails with an engine Error whatever its raw value |
| ArgumentTransformer.TransformViaArgument | src/PrivateServices/ArgumentTransformer.php:49-74 | the provider's lookup, then the resolution of the value it found; lookup failures pass through |
| ArgumentTransformer.TransformAsWritten | src/PrivateServices/InputProvider.php:50 | with `getMapped` as declared, a slot mapped to a position fails with the TypeError and nothing is read or consumed; other slots transform as intended |
| ArgumentTransformer.Transform | src/PrivateServices/ArgumentTransformer.php:33-44 | a lookup failure passes through; otherwise the resolved value or resolution failure, except NullValueException exactly when the value is null under a no-null policy; NoInputException changes nothing; failures commit nothing; success commits the pending consumption |
| ArgumentTransformer.TransformCommitsOnce | src/PrivateServices/ArgumentTransformer.php:41 | a positional hit advances the cursor by exactly one; a named hit moves the entry under the unmapped name into the backup, and nothing when only the mapped name has an entry |
| ArgumentTransformer.TransformIsLookupAndCommit | src/PrivateServices/ArgumentTransformer.php:33-44 | a transform is a lookup, optionally followed by one commit |
| ArgumentTransformer.TransformAllKeepsRestorable | src/PrivateServices/ArgumentTransformer.php:33-44 | any run of transforms, failed ones included, keeps the backup invariant |
| ArgumentTransformer.RollbackAfterTransforms | src/PrivateServices/InputProvider.php:84-99 | `restoreBackup` undoes every transform since `initBackup` |
| ArgumentTransformer.StalePendingIsCommitted | src/PrivateServices/InputProvider.php:60-82 | a pending key left by a failed transform is consumed by the next transform that finds no input |
| ArgumentTransformer.ScalarCandidateBeatsDefault | src/PrivateServices/ArgumentTransformer.php:57-71 | on a null input, the first scalar builtin candidate's cast decides, so the default is never used |
| CallableTransformer.Step | src/PrivateServices/CallableTransformer.php:44-68 | the predefined value without moving the cursor; else the resolution of the supplied raw value, NullValueException for a forbidden null, lookup and resolution failures passing through; the cursor moves by one exactly on a positional hit; NoInputException exactly when nothing is found and missing input is not allowed |
| CallableTransformer.StepAsWritten | src/PrivateServices/CallableTransformer.php:62 | as written, every parameter that finds input (or null) fails with an engine Error; otherwise it agrees with Step |
| CallableTransformer.Supply | src/PrivateServices/CallableTransformer.php:52-60 | the named entry with the cursor kept, else the entry exactly at the cursor with the cursor advanced, else null or NoInputException by policy |
| CallableTransformer.StepAsWrittenRejectsSuppliedInput | src/PrivateServices/CallableTransformer.php:62 | an `int $hello` with the entry '1' fails as written but binds to 1 as intended |
| CallableTransformer.Bind | src/PrivateServices/CallableTransformer.php:40-71 | the cursor advances at most once per parameter; failures are lookup, null-policy or candidate errors |
| CallableTransformer.BindUnfold | src/PrivateServices/CallableTransformer.php:43-69 | one iteration: store the step's value under the unmapped name, or stop at its failure |
| CallableTransformer.BindSplit | src/PrivateServices/CallableTransformer.php:43-69 | binding a concatenation binds the first part, then the second from where it left off |
| CallableTransformer.BindFrame | src/PrivateServices/CallableTransformer.php:68 | keys no parameter is stored under keep their entries |
| CallableTransformer.BindKeys | src/PrivateServices/CallableTransformer.php:40-71 | with distinct names, the keys are the existing ones followed by one per parameter, in declaration order |
| CallableTransformer.BindValueAt | src/PrivateServices/CallableTransformer.php:43-68 | the value under parameter i is its own step's value at the cursor the earlier parameters left |
| CallableTransformer.BindFailsAt | src/PrivateServices/CallableTransformer.php:59-66 | all or nothing: a failure is one parameter's step failure after all earlier parameters bound |
| CallableTransformer.NamedHitIgnoresCursor | src/PrivateServices/CallableTransformer.php:52-53 | a named hit neither reads nor moves the cursor; the input is read-only, so the same entry feeds every parameter mapped to it |
| CallableTransformer.SupplyAgreesWithProvider | src/PrivateServices/CallableTransformer.php:52-60 | the loop's lookup finds what the input provider's `getInput` finds and moves the cursor as its commit would |
| CallableTransformer.Explode | src/PrivateServices/CallableTransformer.php:102 | `explode('::')` pieces implode back to the string; no piece holds a separator; the first piece ends at the first separator; one piece exactly when there is no separator |
| CallableTransformer.ExplodeOfJoin | src/PrivateServices/CallableTransformer.php:102 | a class name and a method name joined by `::` explode back into those two names |
| CallableTransformer.StringRef | src/PrivateServices/CallableTransformer.php:101-104 | a string with `::` is a method reference (first two pieces), otherwise a function reference |
| CallableTransformer.StaticReference | src/PrivateServices/CallableTransformer.php:101-103 | `Class::method` refers to that method of that class |
| CallableTransformer.Arguments | src/PrivateServices/CallableTransformer.php:81-90 | a reflected list as given; a class name gives its constructor's list, a ReflectionException when the class is missing and an engine Error exactly when it has no constructor; a closure, a callable string (split on `::`), a `[class, method]` array and an invokable object (`__invoke`) go to the matching reflection |
| CallableTransformer.RefArguments | src/PrivateServices/CallableTransformer.php:95-111 | a function, method or closure reference gives its declared parameter list when reflection knows it, and a ReflectionException otherwise |
| CallableTransformer.BindParameters | src/PrivateServices/CallableTransformer.php:40-71 | the binding loop from an empty vector and cursor 0: its argument vector on success, its error otherwise |
| CallableTransformer.CallableTransform | src/PrivateServices/CallableTransformer.php:34-72 | reflection failures pass through; otherwise the binding of the target's parameters; the documented exceptions and an engine Error are the only failures |
| CallableTransformer.CallableTransformShape | src/PrivateServices/CallableTransformer.php:40-71 | a successful call has one entry per declared parameter, keyed by its unmapped name, in order |
| ObjectTransformer.StringKeysOnly | src/PrivateServices/ObjectTransformer.php:37-42 | the pool holds exactly the string-keyed entries of the input, unchanged |
| ObjectTransformer.Filter | src/PrivateServices/ObjectTransformer.php:138-142 | exactly the methods within the ceiling, with their multiplicities |
| ObjectTransformer.FilterAppend | src/PrivateServices/ObjectTransformer.php:138-142 | filtering keeps relative order: it distributes over concatenation |
| ObjectTransformer.Insert | src/PrivateServices/ObjectTransformer.php:145-147 | insertion adds exactly one element |
| ObjectTransformer.InsertSorted | src/PrivateServices/ObjectTransformer.php:145-147 | insertion keeps a list sorted by parameter count |
| ObjectTransformer.SortByArity | src/PrivateServices/ObjectTransformer.php:144-148 | the sort is a permutation and sorted by parameter count |
| ObjectTransformer.WithArityInsert | src/PrivateServices/ObjectTransformer.php:145-147 | insertion puts the method at the front of its own parameter-count class and changes no other class |
| ObjectTransformer.SortIsStable | src/PrivateServices/ObjectTransformer.php:144-148 | stability: every parameter-count class keeps its original order |
| ObjectTransformer.SortedUniqueByClasses | src/PrivateServices/ObjectTransformer.php:144-148 | two sorted lists with the same parameter-count classes are equal |
| ObjectTransformer.WithArityFilter | src/PrivateServices/ObjectTransformer.php:138-142 | filtering keeps each class within the ceiling whole and drops the others |
| ObjectTransformer.GetMethods | src/PrivateServices/ObjectTransformer.php:131-151 | a permutation of the methods within the ceiling; sorted above a ceiling of 1, in reflection order otherwise |
| ObjectTransformer.GetMethodsClasses | src/PrivateServices/ObjectTransformer.php:131-151 | every class within the ceiling survives whole and in order |
| ObjectTransformer.GetMethodsIsStableSort | src/PrivateServices/ObjectTransformer.php:144-148 | above a ceiling of 1 the result is the unique sorted list that keeps every class's order |
| ObjectTransformer.GetMethodsMember | src/PrivateServices/ObjectTransformer.php:138-142 | every kept method is a reflected method within the ceiling |
| ObjectTransformer.Consumed | src/PrivateServices/ObjectTransformer.php:73-75 | exactly the mapped names of the string-keyed arguments are removed from the pool, and no other key |
| ObjectTransformer.MethodStep | src/PrivateServices/ObjectTransformer.php:70-80 | a bound method removes its arguments' mapped names from the pool and is invoked with its bound vector spread over its parameters (the intended call, see Findings); missing input or a forbidden null skips it; any other failure escapes unchanged |
| ObjectTransformer.MethodStepAsWritten | src/PrivateServices/ObjectTransformer.php:77-78 | `invoke($target, $argv)` passes the vector as one argument: a TypeError escapes unless the first parameter takes an array and every later one has a default; otherwise the invocation carries the vector as its single argument |
| ObjectTransformer.SetterFailsAsWritten | tests/classes/AccessCountTestClass.php:30-33 | `setHello(string $hello)` with a predefined argument: the call as written escapes with a TypeError, the intended call invokes it with 'hello' set |
| ObjectTransformer.ProcessMethods | src/PrivateServices/ObjectTransformer.php:61-82 | the pool only shrinks and properties are untouched; an empty pool before a method ends the phase as exhausted |
| ObjectTransformer.MethodPhaseInvokesBindable | src/PrivateServices/ObjectTransformer.php:65-81 | the invocations the method phase appends are those of the methods whose parameters bind, in order, over a prefix of its methods that is all of them unless the pool ran empty |
| ObjectTransformer.MethodPhaseInvokesAllBindable | src/PrivateServices/ObjectTransformer.php:65-81 | a method phase that did not run out of pool invokes every method whose parameters bind, in order |
| ObjectTransformer.MethodStepInvokes | src/PrivateServices/ObjectTransformer.php:70-77 | a successful method step appends exactly the method's own invocation when its parameters bind, and nothing otherwise |
| ObjectTransformer.PropertyStep | src/PrivateServices/ObjectTransformer.php:91-125 | without an entry nothing happens; a predefined value is assigned; otherwise the resolution of the pool entry is assigned, a forbidden null skips the property, and a resolution failure escapes; only this property changes |
| ObjectTransformer.PropertyStepAsWritten | src/PrivateServices/ObjectTransformer.php:118 | as written, a property that reaches resolution fails with an engine Error; otherwise it agrees with PropertyStep |
| ObjectTransformer.PropertyStepAsWrittenFails | src/PrivateServices/ObjectTransformer.php:118 | an `int` property with the pool entry '1' fails as written but is assigned 1 as intended |
| ObjectTransformer.ProcessProperties | src/PrivateServices/ObjectTransformer.php:87-126 | the pool and the invocations are untouched; an empty pool before a property ends the phase as exhausted, and a non-empty pool never does |
| ObjectTransformer.PropertyStepOwnName | src/PrivateServices/ObjectTransformer.php:91-125 | a property step reads the target only through that property's own value |
| ObjectTransformer.PropertyPhaseIsPerProperty | src/PrivateServices/ObjectTransformer.php:87-126 | with distinct names, each property ends with what its own step assigns on the original target, and properties outside the list keep their values |
| ObjectTransformer.ObjectTransform | src/PrivateServices/ObjectTransformer.php:32-56 | only a candidate error can escape hydration |
| ObjectTransformer.MethodPhaseAppends | src/PrivateServices/ObjectTransformer.php:65-81 | the method phase keeps earlier invocations and only appends |
| ObjectTransformer.MethodPhaseInvokesItsMethods | src/PrivateServices/ObjectTransformer.php:65-81 | every appended invocation is of one of the phase's methods |
| ObjectTransformer.MethodPhaseConsumes | src/PrivateServices/ObjectTransformer.php:73-75 | every key removed from the pool is a mapped argument name of an invocation the phase appended |
| ObjectTransformer.InvocationsWithinCeiling | src/PrivateServices/ObjectTransformer.php:65-81 | every invocation is of a reflected method within the parameter-count ceiling |
| ObjectTransformer.EmptyPoolLeavesTarget | src/PrivateServices/ObjectTransformer.php:37-53 | input without string keys leaves the target unchanged |
| ObjectTransformer.ExhaustionSkipsProperties | src/PrivateServices/ObjectTransformer.php:44-53 | once the method phase empties the pool, no property is assigned |
| ObjectTransformer.PhaseOrder | src/PrivateServices/ObjectTransformer.php:44-53 | both orders: methods first, the property phase starts from the pool and invocations the method phase left; properties first, the method phase starts from the whole pool and the assigned properties; a phase error escapes; exhaustion ends hydration |
| ObjectTransformer.PropertiesFirstInvokesBindable | src/PrivateServices/ObjectTransformer.php:48-51 | with properties first and a non-empty pool, hydration assigns what the property phase assigns, then invokes the bindable methods in `getMethods` order while the pool lasts |
| ParameterTransformer.LegacyName | src/ParameterTransformer.php:72-80 | without a mapping the name; with one, the entry for the name, else for the cursor, else the name |
| ParameterTransformer.AsRenameTable | src/ParameterTransformer.php:74-79 | the rename table holds exactly the mapping's string keys |
| ParameterTransformer.LegacyNameIsGetMapped | src/ParameterTransformer.php:74-79 | without a positional entry, renaming is the configuration's single-step `getMapped` |
| ParameterTransformer.LegacyLookup | src/ParameterTransformer.php:82-89 | the cursor advances by at most one |
| ParameterTransformer.LegacyLookupIsLenientSupply | src/ParameterTransformer.php:82-89 | the older lookup is the callable loop's lookup under a policy that allows missing input |
| ParameterTransformer.LegacyTransformViaType | src/ParameterTransformer.php:135-161 | an untyped argument is a TypeError for every value; otherwise the 'null' literal rule, then the builtin cast, the class hook for a known class, or the value unchanged |
| ParameterTransformer.LegacyCandidateIsNewerOffClasses | src/ParameterTransformer.php:135-156 | outside class types the older per-candidate rule is the newer one |
| ParameterTransformer.LegacyResults | src/ParameterTransformer.php:110-111 | one result per candidate, in declared order |
| ParameterTransformer.LegacyLoop | src/ParameterTransformer.php:110-116 | only an engine Error can escape the loop |
| ParameterTransformer.LegacyTransformViaArgument | src/ParameterTransformer.php:104-133 | only an engine Error can escape the resolution |
| ParameterTransformer.LegacyLoopDecides | src/ParameterTransformer.php:110-120 | the loop ends in the first deciding result, or leaves a non-winning value |
| ParameterTransformer.LegacyAgreesWithFirstDecisive | src/ParameterTransformer.php:104-133 | the break/isset loop selects exactly what the newer resolver selects |
| ParameterTransformer.LegacyReads | src/ParameterTransformer.php:71-89 | each argument's renamed key is renamed at the cursor it is read at, its raw value is the lookup of that key, and the cursor passes from one argument to the next as the lookup moves it |
| ParameterTransformer.LegacyBind | src/ParameterTransformer.php:68-94 | keys stay unique and there is at most one entry per argument |
| ParameterTransformer.LegacyBindUnfold | src/ParameterTransformer.php:71-92 | one iteration: the first argument's read resolves and is stored under its renamed key, and the loop goes on from the cursor the lookup left |
| ParameterTransformer.LegacyBindOk | src/ParameterTransformer.php:71-92 | the loop succeeds exactly when every argument's own raw value resolves |
| ParameterTransformer.LegacyBindFrame | src/ParameterTransformer.php:91 | a key no argument is renamed to keeps its entry |
| ParameterTransformer.LegacyBindKeys | src/ParameterTransformer.php:68-94 | the result's keys are the existing keys and the renamed key of every argument, nothing else |
| ParameterTransformer.LegacyBindValueAt | src/ParameterTransformer.php:84-91 | an argument whose renamed key no later argument shares holds the resolution of its own raw value under that key |
| ParameterTransformer.Transform | src/ParameterTransformer.php:64-95 | succeeds exactly when every argument's raw value resolves; the result then has unique keys, exactly the renamed keys of the arguments |
| ParameterTransformer.SameKeyOverwrites | src/ParameterTransformer.php:91 | two arguments renamed to the same key give one entry, holding the second value |
| ParameterTransformer.MissingInputResolvesNull | src/ParameterTransformer.php:82-91 | missing input is not an error: the argument resolves from null to its default |
| Scenarios.StringSlotKeepsText | tests/TestParameterTransformer.php:179-182 | a string slot keeps any text except 'null' |
| Scenarios.MappingRunsFailAsWritten | tests/TestParameterTransformer.php:117-146 | with `getMapped` as declared, all three mapping configurations (`'hello' => 5`, `'hello' => 7`, and 7 with missing input allowed) fail with a TypeError at the first transform |
| Scenarios.MappingToPositionReadsIt | tests/TestParameterTransformer.php:117-120 | `hello` mapped to position 5 reads 'crazy horse' |
| Scenarios.FirstPositionRead | tests/TestParameterTransformer.php:122-125 | `hello` mapped to the missing position 7 reads position 0 and advances the cursor |
| Scenarios.GapAfterFirstPosition | tests/TestParameterTransformer.php:122-134 | the second lookup finds position 1 empty: NoInputException |
| Scenarios.GapWithNoInputAllowed | tests/TestParameterTransformer.php:136-146 | with missing input allowed the second lookup gives "" (loosely equal to the expected null) |
| Scenarios.NullableStringOfNull | tests/TestParameterTransformer.php:136-146 | a `?string` slot casts a missing value to "" |
| Scenarios.NullLiteralCases | tests/TestParameterTransformer.php:155-162 | 'null' in a nullable string slot gives "", and in a non-nullable one stays 'null' |
| Scenarios.IntSlotCasts | tests/TestParameterTransformer.php:164-167 | an `int` slot returns the integer cast of any value the cast changes |
| Scenarios.FalseTextIsTrue | tests/TestParameterTransformer.php:169-172 | the text 'false' in a bool slot is true |
| Scenarios.ConsumedEntryIsGone | tests/TestParameterTransformer.php:237-242 | a consumed entry is gone: 23, then 0 from a missing input |
| Scenarios.HelloStep | tests/TestParameterTransformer.php:247-258 | the entry '12' binds `int $hello` to 12 |
| Scenarios.WorldStep | tests/TestParameterTransformer.php:247-258 | the missing `string $world` binds to "" |
| Scenarios.ConstructorWorldIsEmptyString | tests/TestParameterTransformer.php:247-258 | under the corrected step, the constructor's first two parameters bind to hello 12 and world "" |
| Scenarios.DiStep | tests/classes/ConstructorTestClass.php:16 | the missing `DIConstructedClass $di = null` is null, which the class candidate hands to `hasPredefinedValue`: an engine Error |
| Scenarios.ConstructorFailsAtDi | tests/TestParameterTransformer.php:247-258 | all three constructor parameters: the binding fails at `$di` with an engine Error instead of giving the expected vector |

## Findings

| source | as written | input that shows it | evidently intended | confidence | as-written member | corrected member |
|---|---|---|---|---|---|---|
| src/PrivateServices/CallableTransformer.php:62 | `transformViaArgument($inputValue, $argument)` passes the raw value where `ArgumentTransformer::transformViaArgument` declares a reflection parameter and an input provider, so PHP raises a TypeError | an `int $hello` with input `['hello' => '1']` and the default configuration; as intended it binds to 1 | resolve the raw value against the parameter's type candidates | high, not executed | CallableTransformer.StepAsWritten, CallableTransformer.StepAsWrittenRejectsSuppliedInput | CallableTransformer.Step |
| src/Configuration.php:48-51 | `getMapped(string $key): string` returns the mapping entry, and the file uses strict typing, so an entry that is a position raises a TypeError | `setMapping(['hello' => 5])`, then `transform` of `?string $hello` (tests/TestParameterTransformer.php:117-120) | return the position so that the lookup reads it, as the tests expect ('crazy horse') | high, not executed | Configuration.GetMappedAsWritten, ArgumentTransformer.TransformAsWritten, Scenarios.MappingRunsFailAsWritten | Configuration.GetMapped, Configuration.GetMappedAsWrittenOnNames, Scenarios.MappingToPositionReadsIt |
| src/PrivateServices/ObjectTransformer.php:77 | `$method->invoke($target, $argv)` passes the argument vector as ONE argument; a setter with a scalar first parameter raises a TypeError that the `catch` at line 78 does not cover, so it escapes `objectTransform` | `setHello(string $hello)` (tests/classes/AccessCountTestClass.php:30) with its argument bound | spread the vector over the parameters (`invokeArgs`), so the setter runs with its own argument | high, not executed | ObjectTransformer.MethodStepAsWritten, ObjectTransformer.SetterFailsAsWritten | ObjectTransformer.MethodStep |
| src/PrivateServices/ObjectTransformer.php:118 | the same call with the pool entry and the property; the TypeError is caught by neither `catch` and escapes `objectTransform` | an `int` property `$hello` with pool `['hello' => '1']`; as intended it is assigned 1 | resolve the pool entry against the property's type candidates | high, not executed | ObjectTransformer.PropertyStepAsWritten, ObjectTransformer.PropertyStepAsWrittenFails | ObjectTransformer.PropertyStep |

The corrected binding and property steps use the resolution of
`transformViaArgument` after its lookup (`ArgumentTransformer.ResolveRaw`).
The rest of the model uses the corrected members throughout: `GetMapped`
returns positions as keys wherever it is called, and hydration records
the spread call.

## Notes on the code

- **Behaviour the code defines where the written description differs.**
  - `callableTransform` does not go through an input provider. It reads a read-only input map with its own cursor. The cursor moves only on a positional hit, and no entry is consumed, so two parameters mapped to the same name read the same entry (`CallableTransformer.NamedHitIgnoresCursor`).
  - Hydration never uses a provider either. The property phase reads the pool without consuming it. The method phase removes the mapped names of a bound method's arguments.
- **Test expectations the code does not produce.**
  - The four mapping runs (`tests/TestParameterTransformer.php:117-146`: 'crazy horse' from position 5, 'deep sea' from position 0, then NoInputException, then null with missing input allowed) never reach the lookup: `getMapped` raises a TypeError when it returns the position (second finding, `Scenarios.MappingRunsFailAsWritten`). `Scenarios.MappingToPositionReadsIt`, `Scenarios.FirstPositionRead`, `Scenarios.GapAfterFirstPosition` and `Scenarios.GapWithNoInputAllowed` state what the intended lookup gives.
  - The constructor test (`tests/TestParameterTransformer.php:247-258`) calls `callableTransform` on a `ParameterTransformer`, which `src/ParameterTransformer.php` does not define. The scenario therefore runs the binding loop of `CallableTransformer`, with the corrected step of the first finding. Two of its expectations are not what that loop produces:
    - The missing `string $world = 'hello hello'` is expected to take its default. Under the candidate rule, though, the `string` cast of the missing (null) value is "", which is non-null and differs from null, so it decides before the default is reached (`Scenarios.ConstructorWorldIsEmptyString`).
    - The missing `DIConstructedClass $di = null` is expected to be built by the DI container. Its class candidate hands the null value to `hasPredefinedValue(string)` first, a TypeError under `strict_types`, so the whole binding fails there (`Scenarios.DiStep`, `Scenarios.ConstructorFailsAtDi`).
- **Values handed to `hasPredefinedValue`.** The class-type rule asks `hasPredefinedValue($value)` with the raw value (`ArgumentTransformer.php:107`), not with the type name. The parameter is declared `string` under `strict_types`, so any raw value that is not a string, null included, raises a TypeError (`ArgumentTransformer.TransformViaNamedType`).
- **Untyped parameters.** For a parameter or property without a declared type, `getType()` is null, and both resolvers pass that null to a `ReflectionType` parameter: a TypeError for every value (`ArgumentTransformer.UntypedSlotRejectsEveryValue`, `ParameterTransformer.LegacyTransformViaType`).
- **Dead branches.** In `processProperties`, the branch at `ObjectTransformer.php:110-116` can only take its first arm: line 98 has already skipped properties without a pool entry.
- **Method arguments in hydration.** `processMethods` calls `callableTransform($method)` without input or configuration, so a method's arguments come from the default resource and a fresh configuration, not from the pool. The model takes them as the explicit parameters `methodInput` and `methodConfig` of `ObjectTransformer.ObjectTransform`.
- **The mapping table.** `getMapped` is declared over strings. The tests map names to positions (`'hello' => 7`), so the table maps strings to keys; the declared string return is the second finding.

## Left out

- Reading the default resource (`php://input` or the configured callable), the DI container (`di_get`, `di_get_tagged`) and live reflection. These are I/O and foreign calls. The model takes the input map, the signatures (`CallableTransformer.Signatures`), the class table and the factory hooks (`Reflection.World`) as parameters.
- PhpValues.ToFloat: floating point is not modelled. Floats are opaque tokens whose conversions come from `PhpValues.FloatOps`, so the contract states only that the result is a float and that a float is kept.
- PHP's `(int)` of exponent and fraction forms ("1e3", "3.5"): `PhpValues.LeadingInt` reads the leading integer numeral only.
- `PhpValues.ToString` of an object with `__toString`: modelled as failing, as for any object, because the class table records no such method.
- The visibility filters (`getFilterMethods` / `getFilterProperties`): the method and property lists given to `ObjectTransformer.ObjectTransform` are those reflection returned after filtering.
- `usePropertyTransformation`: stored by `Configuration`, but `objectTransform` never reads it.
- Invoking a method and assigning a property are recorded in `Hydrated`, not performed; their side effects on the target are not modelled.
- ObjectTransformer.ObjectTransform: an error that escapes hydration is returned alone. In PHP the target is a handle, so the properties assigned and the methods invoked before the throw stay in effect; the model does not return that partial state.
- PHP's normalisation of numeric-string array keys into integers ('2' and 2 are distinct keys here).
- The older resolver's class-name rule (`ParameterTransformer.php:163-198`: entity loading, construction by transform, DI fallback) is one collaborator hook, `World.legacyClassTransform`. It calls the DI container and the data layer, which are outside this model.
- `callFromTransform`, `castFromTransform` and `constructFromTransform` only pass the result of `transform` to PHP's call, cast or `new`.
- ObjectTransformer.ProcessMethods: its own contract does not say which methods are invoked. `ObjectTransformer.MethodPhaseInvokesBindable` and `ObjectTransformer.MethodPhaseInvokesAllBindable` state it.
- ParameterTransformer.LegacyBind: its own contract gives only unique keys and the size bound. `ParameterTransformer.LegacyBindOk`, `ParameterTransformer.LegacyBindKeys` and `ParameterTransformer.LegacyBindValueAt` state when it succeeds, its keys and its values.
- ObjectTransformer.ObjectTransform: its own contract states only which errors escape. What it assigns and invokes is stated by `ObjectTransformer.PhaseOrder`, `ObjectTransformer.MethodPhaseInvokesBindable` and `ObjectTransformer.PropertiesFirstInvokesBindable`.
