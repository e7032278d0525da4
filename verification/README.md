# psx-record, modelled in Dafny

This project models the core of the PSX record library:

- **Record.** An insertion-ordered map from string keys to nullable values. Its accessors are `getProperty`, `setProperty`, `hasProperty`, `removeProperty`, `getProperties`, `isEmpty`, `merge`, `filter` and `map`. Its named constructors are `fromArray`, `fromStdClass`, `from` and `__set_state`.
- **RecordAbstract.** The access layer every record shares: array-style access, property-style access, iteration, PHP serialisation and JSON serialisation.
- **Mapper.** Copies the non-null entries of a record into an arbitrary object by calling its `set…` methods. A rule table can steer it.
- **Rule.** A mapper rule: a target field name plus an optional value, which is either a constant or a callable.

- A record's storage is a sequence of `(key, value)` pairs with unique keys (`Records.Storage`). A PHP `null` is `None`. A key that holds `None` is still *present*: `hasProperty` sees it, but `getProperties` and everything built on it hide it (iteration, serialisation, JSON, the mapper).
- A mapping's effect is the sequence of setter calls it makes on the destination. The destination is modelled by the set of its method names, and PHP finds methods without regard to ASCII case.
- The camel-case rewrite of underscore keys is modelled on strings: `explode('_')`, `ucfirst` on each segment, `implode('')`.

Modules, one per source concept:

| file | module | models |
|---|---|---|
| `wrappers.dfy` | `Wrappers` | `Option` / `Result` |
| `ascii.dfy` | `Ascii` | `ucfirst`, `explode`/`implode` on `_`, ASCII case folding |
| `record.dfy` | `Records` | `Record` and its operations |
| `record_laws.dfy` | `RecordLaws` | laws relating the record operations |
| `construction.dfy` | `RecordConstruction` | `merge`, the constructor and the named constructors |
| `record_abstract.dfy` | `RecordAccess` | `RecordAbstract` |
| `rule.dfy` | `Rules` | `Mapper\Rule` |
| `mapper.dfy` | `Mapper` | `Mapper::map` |
| `mapper_laws.dfy` | `MapperLaws` | laws about the mapper |
| `mapper_scenario.dfy` | `MapperScenario` | the mapper unit test, worked out on the model |

One behaviour of the mapper is easy to miss:

- **Rule lookup key.** `Mapper::map` rewrites an underscore key to camel case *before* it consults the rule table (src/Mapper.php:45-50). A rule stored under the original `right_level` form is therefore never found. `MapperLaws.UnderscoreRulesInert` states this: a rule under a key containing `_` never takes effect.

## Model

| member | source | states |
|---|---|---|
| Records.GetProperties | src/Record.php:52-57 | the snapshot holds exactly the stored pairs whose value is non-null, in storage order, with unique keys |
| Records.SetProperties | src/Record.php:62-65 | the storage is replaced wholesale; exactly the given keys are present afterwards |
| Records.Lookup | src/Record.php:70-73 | the stored slot of a key: absent, present with null, or present with a value; it matches membership of the pair in storage |
| Records.GetProperty | src/Record.php:70-73 | yields `x` exactly when `(k, Some(x))` is stored; an absent key and a null-valued key both read as null |
| Records.HasProperty | src/Record.php:96-99 | true exactly when some pair with key `k` is stored, null values included (`array_key_exists`) |
| Records.IsEmpty | src/Record.php:104-107 | true exactly when no key is present, counting null-valued keys |
| Records.Put | src/Record.php:78-81 | PHP array assignment: an existing key is overwritten at its position; a new key is appended; keys stay unique |
| Records.SetProperty | src/Record.php:78-81 | overwrite in place when the key is present, append at the end otherwise |
| Records.Delete | src/Record.php:86-91 | PHP `unset`: exactly the entry of `k` is dropped, the rest keep their order; an absent key changes nothing |
| Records.RemoveProperty | src/Record.php:86-91 | the key is deleted only when `isset` holds (present and non-null); afterwards it is absent; otherwise the record is unchanged |
| RecordConstruction.LastIn | src/Record.php:112-117 | the value of the last pair with key `k` in a merge source, present exactly when the source mentions `k` |
| RecordConstruction.Iterate | src/Record.php:114 | an array or generator yields its pairs as they are; a record yields exactly its non-null pairs, in storage order, as its iterator does (src/RecordAbstract.php:75-78) |
| RecordConstruction.From | src/Record.php:157-166 | an iterable goes through `fromArray`, a stdClass through `fromStdClass`, and anything else fails with InvalidArgument |
| Records.Filter | src/Record.php:122-125 | keeps exactly the pairs whose value passes the predicate (null values are offered too), in their original relative order |
| Records.MapValues | src/Record.php:130-133 | same keys in the same order; each value replaced by its image |
| Records.NonNullUnique | src/Record.php:52-57 | the non-null snapshot of unique-keyed storage has unique keys, so it is a valid array |
| RecordLaws.LookupAfterSet | src/Record.php:78-81 | after `setProperty(k, v)` key `k` holds `v` and every other key holds what it held |
| RecordLaws.GetAfterSet | src/Record.php:70-81 | `getProperty` reads back the value written, and the key is present even when null was written |
| RecordLaws.SetLeavesOthers | src/Record.php:70-81 | writing one key changes neither the value nor the presence of any other key |
| RecordLaws.SetKeyOrder | src/Record.php:78-81 | overwriting keeps the key order; a new key goes last |
| RecordLaws.NullValuedKey | src/Record.php:52-99 | a null-valued key is seen by `hasProperty`, reads as null, is missing from `getProperties`, and `removeProperty` leaves it in place |
| RecordLaws.NullAndAbsentReadAlike | src/Record.php:70-99 | an absent key and a key set to null read alike through `getProperty`; only `hasProperty` tells them apart |
| RecordLaws.RemoveUndoesSet | src/Record.php:78-91 | removing a freshly added non-null key gives back the original record |
| RecordLaws.RemoveLeavesOthers | src/Record.php:86-91 | `removeProperty` leaves the slot of every other key as it was |
| RecordLaws.EmptyMeansNoSnapshot | src/Record.php:104-107 | an empty record has an empty snapshot |
| RecordLaws.NullOnlyRecordIsNotEmpty | src/Record.php:104-107 | a record holding only nulls has an empty snapshot, yet it is not empty |
| RecordLaws.NonNullOfLift | src/Record.php:52-57 | a null-free snapshot taken back into storage gives the same snapshot again |
| RecordLaws.GetPropertyMatchesSnapshot | src/Record.php:52-73 | `getProperty(k)` is `v` exactly when `(k, v)` is in the `getProperties` snapshot |
| RecordConstruction.Merge | src/Record.php:112-117 | after `merge` every key holds the value of the last source pair with that key, or its old slot when the source does not mention it; the keys already present keep their order, ahead of any new ones |
| RecordConstruction.MergeSnoc | src/Record.php:112-117 | `merge` is a left fold of `setProperty`: merging one more pair equals merging the others and then setting that pair, so every new key sits where its first occurrence put it |
| RecordConstruction.MergeSuffix | src/Record.php:112-117 | merging the remaining pairs of a unique-keyed sequence into a record of its prefix yields the record of the whole sequence |
| RecordConstruction.New | src/Record.php:43-47 | the constructor gives each key the value of its last source pair; a source without repeated keys is stored exactly, nulls included |
| RecordConstruction.NewSnoc | src/Record.php:43-47 | building from one more pair equals building from the others and then setting that pair; a repeated key keeps its first position and takes the later value |
| RecordConstruction.FromArray | src/Record.php:139-142 | an array or generator is stored as the constructor stores it; another record contributes exactly its non-null entries, in order |
| RecordConstruction.FromStdClass | src/Record.php:148-151 | every field of the object is stored, in declaration order, null-valued fields included |
| RecordConstruction.SetState | src/Record.php:172-175 | a missing `properties` field gives an empty record; otherwise each key holds the value of its last exported pair |
| RecordConstruction.SetStateRoundTrip | src/Record.php:172-175 | rebuilding a record from its exported `properties` gives the same record, null-valued keys included |
| RecordConstruction.FromRecord | src/Record.php:157-166 | a record built `from` another record has exactly that record's snapshot |
| RecordLaws.MapKeepsKeys | src/Record.php:130-133 | `map` keeps the set of present keys |
| RecordLaws.FilterSnapshot | src/Record.php:122-125 | after `filter` the snapshot holds exactly the non-null pairs whose value passed |
| RecordAccess.OffsetGet | src/RecordAbstract.php:67-70 | `$record[k]` reads as `getProperty`; an absent key reads as null |
| RecordAccess.OffsetSet | src/RecordAbstract.php:41-44 | `$record[k] = v` is `setProperty`; the value then reads back and the key exists |
| RecordAccess.OffsetExists | src/RecordAbstract.php:50-53 | `isset($record[k])` is `hasProperty`, so it is true for a null-valued key |
| RecordAccess.OffsetUnset | src/RecordAbstract.php:58-61 | `unset($record[k])` is `removeProperty`; the key then reads as null |
| RecordAccess.MagicGet | src/RecordAbstract.php:117-120 | `$record->k` reads exactly as `$record[k]` |
| RecordAccess.MagicSet | src/RecordAbstract.php:108-111 | `$record->k = v` writes exactly as `$record[k] = v`, and reads back |
| RecordAccess.MagicIsset | src/RecordAbstract.php:126-129 | `isset($record->k)` agrees with `isset($record[k])` |
| RecordAccess.MagicUnset | src/RecordAbstract.php:134-137 | `unset($record->k)` agrees with `unset($record[k])` |
| RecordAccess.GetIterator | src/RecordAbstract.php:75-78 | iteration visits exactly the non-null pairs, in storage order, each key once |
| RecordAccess.IterationSkipsNull | src/RecordAbstract.php:75-78 | a null-valued key is reported by `isset` yet never visited |
| RecordAccess.Serialize | src/RecordAbstract.php:83-86 | the payload holds exactly the non-null pairs |
| RecordAccess.Unserialize | src/RecordAbstract.php:91-94 | the payload replaces the whole storage: the snapshot afterwards is the payload, and a key is present exactly when the payload has it |
| RecordAccess.SerializeRoundTrip | src/RecordAbstract.php:83-94 | the round trip keeps exactly the non-null pairs, in order |
| RecordAccess.SerializeRoundTripExact | src/RecordAbstract.php:83-94 | the round trip gives back the same record exactly when the record holds no null |
| RecordAccess.JsonSerialize | src/RecordAbstract.php:99-102 | the JSON object's members are exactly the non-null pairs, in storage order |
| RecordAccess.EmptyJson | src/RecordAbstract.php:99-102 | a record holding only nulls (or nothing) encodes as `{}` |
| Rules.NewRule | src/Mapper/Rule.php:46-50 | the name reads back; without a value the rule passes every source value through; with a constant it yields that constant for every input |
| Rules.GetValue | src/Mapper/Rule.php:65-74 | no value: the source value unchanged; a callable: its result on (value, row); otherwise: the constant |
| Rules.ConstIgnoresInput | src/Mapper/Rule.php:65-74 | a constant rule yields the same whatever the value and the row |
| Rules.OnlyCallablesYieldNull | src/Mapper/Rule.php:65-74 | only a callable rule can produce null |
| Mapper.NormalizeKey | src/Mapper.php:45-47 | the rewritten key never contains `_`, and a key without `_` is kept unchanged |
| Mapper.NormalizeTwoWords | src/Mapper.php:45-47 | `a_b` becomes `ucfirst(a)ucfirst(b)` for underscore-free words |
| Mapper.Callable | src/Mapper.php:61 | a declared method is callable, and a callable name matches a declared method letter for letter, ignoring case |
| Mapper.RuleFor | src/Mapper.php:49-50 | the table is consulted with the rewritten key, and a null entry counts as no entry |
| Mapper.Resolve | src/Mapper.php:49-59 | no rule: `set` plus the ucfirst'ed key, with the source value; a string rule: `set` plus that string; a Rule: `set` plus its name, with the rule's value; any other rule resolves to nothing |
| Mapper.Step | src/Mapper.php:49-63 | at most one call per entry, and only to a method the destination has; the resolved setter is called with the resolved argument whenever the destination has it; an entry whose rule is neither a string nor a Rule makes no call |
| Mapper.Dispatch | src/Mapper.php:43-64 | calls come entry by entry, at most one per entry, each to an existing `set…` method |
| Mapper.Map | src/Mapper.php:39-65 | at most one call per non-null source entry, each to a `set…` method the destination has |
| MapperLaws.DispatchAppend | src/Mapper.php:43-64 | the calls for a concatenation of entries are the calls for the first part, then those for the second |
| MapperLaws.DispatchSameRules | src/Mapper.php:49-59 | two rule tables that govern every entry alike make the same calls |
| MapperLaws.UnderscoreRulesInert | src/Mapper.php:45-50 | a rule stored under a key containing `_` never takes effect |
| MapperLaws.NullRuleIsNoRule | src/Mapper.php:50 | a null entry in the rule table behaves as no entry at all |
| MapperLaws.NullEntryMakesNoCall | src/Mapper.php:41-43 | adding a null-valued key to the source makes no extra call |
| MapperLaws.OnlySnapshotMatters | src/Mapper.php:41-43 | the calls depend only on the non-null entries: filtering nulls out first maps the same |
| MapperLaws.UcfirstIrrelevantToLookup | src/Mapper.php:58-61 | because method lookup ignores case, `ucfirst` never decides whether a setter is found |
| MapperLaws.StepWithoutRule | src/Mapper.php:57-63 | an entry without a rule calls `set` plus its ucfirst'ed rewritten key with the source value, if that method exists |
| MapperLaws.StepRename | src/Mapper.php:51-52 | a string rule calls `set` plus that string, ucfirst'ed, with the source value |
| MapperLaws.StepApply | src/Mapper.php:53-55 | a Rule calls `set` plus the rule's name, ucfirst'ed, with the rule's value |
| MapperLaws.StepUnusable | src/Mapper.php:49-58 | an entry whose rule is neither null, a string nor a Rule makes no call |
| MapperLaws.DispatchAt | src/Mapper.php:43-64 | entry `i` makes its calls after those of the entries before it and before those of the entries after it |
| MapperLaws.MapAt | src/Mapper.php:41-64 | within `map`, each non-null entry makes its own Step's calls at its own place, and that Step sees the whole snapshot as its row |
| MapperLaws.CallableFoldsCase | src/Mapper.php:61 | whether a method is callable depends only on its case-folded name |
| MapperLaws.LengthMismatchNotCallable | src/Mapper.php:61 | a name no declared method matches in length is not callable |
| MapperScenario.SourceSnapshot | tests/MapperTest.php:39-49 | the test's source record holds its seven entries, none null |
| MapperScenario.RightLevelCamelized | tests/MapperTest.php:43-44 | `right_level` is rewritten to `RightLevel` |
| MapperScenario.StepId | tests/MapperTest.php:40 | `id` has no rule and goes to `setId` with its value |
| MapperScenario.StepUserId | tests/MapperTest.php:41-42 | `userId` has no setter on the destination, so it makes no call |
| MapperScenario.StepRightLevel | tests/MapperTest.php:44 | `right_level` has no rule under its rewritten key and goes to `setRightLevel` with its value |
| MapperScenario.StepTitle | tests/MapperTest.php:55 | the string rule sends `title` to `setDescription` |
| MapperScenario.StepContent | tests/MapperTest.php:46-56 | the Rule without a value passes the content through unchanged to `setContent` |
| MapperScenario.StepRating | tests/MapperTest.php:57 | the constant rule replaces the rating with `no-rating` and sends it to `setLevel` |
| MapperScenario.StepDate | tests/MapperTest.php:58-62 | the callable rule receives the date and the whole snapshot, and its result goes to `setDate` |
| MapperScenario.TestMapping | tests/MapperTest.php:37-71 | the whole mapping: six setter calls in source order, with `userId` skipped |
| Ascii.Split | src/Mapper.php:46 | `explode('_')` always yields at least one segment |
| Ascii.SplitSegmentsPlain | src/Mapper.php:46 | no segment of `explode('_')` contains the separator |
| Ascii.JoinSplit | src/Mapper.php:46 | `implode('_', explode('_', s))` is `s` |
| Ascii.SplitJoin | src/Mapper.php:46 | `explode` after `implode` of underscore-free segments gives back the segments |
| Ascii.SplitAtUnderscore | src/Mapper.php:46 | splitting at one more `_` appends the segments of the two halves |
| Ascii.CamelizeSegments | src/Mapper.php:46 | the camel-case rewrite of `a_b` is the rewrite of `a` followed by that of `b` |
| Ascii.CamelizeWithoutUnderscore | src/Mapper.php:46 | on a key without `_` the rewrite is just `ucfirst` |
| Ascii.Camelize | src/Mapper.php:46 | the camel-case rewrite never contains `_` |
| Ascii.Ucfirst | src/Mapper.php:46 | the first character upper-cased (ASCII only), the length and the rest unchanged |
| Ascii.UcfirstFoldsAlike | src/Mapper.php:61 | `ucfirst` is invisible once case is folded, as PHP folds method names |

## Left out

- **PHP byte formats.** The encodings of `serialize` and `json_encode` are not modelled. Only their payloads are: the pair sequence, and the JSON object's members.
- **Integer-like keys.** PHP coerces numeric-string keys to integers. Keys here are strings only.
- **Destination setters.** Setters run on the destination object. Only the sequence of calls is modelled, not the setters' effect.
- **Method lookup.** `is_callable` is modelled as ASCII-case-insensitive membership in the destination's declared method names. A destination's `__call` magic method, and visibility, are not modelled.
- **Callables in rules.** A callable rule is an arbitrary total function of (value, row) that may yield null. Callables given as strings or arrays, and a callable that throws, are not modelled.
- **`strtotime`.** `strtotime` in the mapper test is the parameter `toEpoch`, so the epoch value the test checks is not computed.
- **The test's destination class.** The destination class of the mapper test is not part of this model. `MapperScenario.Setters` assumes it has exactly the six setters the test reads back.
- **Iterator flag.** `ArrayIterator::ARRAY_AS_PROPS` on the iterator changes only how the iterator itself is accessed. It is not modelled.
- **Types of `from`.** `from`, `fromArray` and `fromStdClass` take PHP values of any type. They are modelled by the `Input` and `Source` datatypes. A value that is neither iterable nor a stdClass is `OtherInput`.
- **Generators.** An iterable that is a generator is modelled by the pairs it yields. Those pairs may repeat a key, so `merge` keeps the last value.
- **Multibyte `ucfirst`.** `ucfirst` and method-name case folding act on ASCII letters only, as PHP 8.2 and later do. Locale-dependent case mapping is not modelled.
- **Record mutability.** Records are PHP objects that change in place. The model is functional: every mutator returns the new record.
- **Rules.GetName.** It only reads the field, so it has no contract of its own. `Rules.NewRule` states that the name reads back.
- **Context code.** `RecordInterface`, the display-name accessors, and the Merger, Transformer and Store helpers used by the tests are not part of this model.
