# kfunc form engine and tool catalog, in Dafny

This project models the core of kfunc's `internal/platform` package.

- **The tag parser `parseTag`.** It turns a field's declared name and its `form:"k=v,..."` tag into a `FieldSpec`.
- **The schema extractor `ExtractFields`.** It walks a form struct's exported fields in declaration order and describes each one with `parseTag`.
- **The binder `BindFormValues`.** It walks the same fields and looks each one up, under its (possibly renamed) form name, in the submitted `url.Values`. It writes the coerced value into the struct in place and stops at the first number that does not parse.
- **The tool catalog of registry.go.** It holds an id → tool map and a space → tools index. `RegisterTool` writes both; `GetTool`, `ListSpaces` and `ListToolsBySpace` read them.

Modules, one per file:

- `GoStrings` (go_strings.dfy) and `GoStrconv` (go_strconv.dfy) model the parts of Go's `strings` and `strconv` that the core calls. Each has a partner that it inverts: `Join` undoes `Split`, and `ParseInt`/`ParseUint` undo `FormatInt`/`FormatUint`.
- `Fields` (fields.dfy) replaces reflection with an explicit field table. Each field has a name, an exported flag, a tag, and a kind. A `Record` class holds one mutable value slot per field. It also models how `reflect.Value.SetInt` and `SetUint` truncate a value to the field's width.
- `Form` (form.dfy) models `FieldSpec`, `parseTag` and `inferTypeByKind`.
  - `ParseTag` is the loop of the source. It is proved equal to `SpecOf`, which applies the tag's key/value pairs to the defaults from left to right.
  - The tag grammar is characterised by lemmas: how a part is trimmed and cut at its first `=`, that the last occurrence of a key wins, that unknown keys and parts without `=` are ignored, and that writing and then parsing a tag gives its pairs back.
- `Binding` (binding.dfy) models `ExtractFields` and `BindFormValues`.
  - `ExtractFields` is proved to return `Schema`: one `SpecOf` per exported field, in order.
  - `BindFormValues` is proved against `Outcomes`, which gives each field's coerced value, "keep" or "fail". Every field before the first failure gets its outcome, and every later field is untouched.
- `Registry` (registry.dfy) models the catalog as a class with the two map fields. Its specification is the ghost sequence of registrations so far, and every query is proved equal to a function of that sequence.
- `ExampleTools` (example_tools.dfy) holds the repository's two example tools as scenarios.
  - It gives the schema of `TextForm` and two submissions bound into it.
  - It models `Register` of register.go and what the catalog answers after start-up.

Three behaviours of the code are worth knowing:

- **Form names.** Nothing keeps form names non-empty or unique: `name=` renames a field to `""` (form.go:55-56, `Form.EmptyNameOverride`).
- **An empty `options=` value.** It assigns nothing, so an earlier `options=` in the same tag is kept (form.go:63-66, `Form.OptionsAssignment`).
- **Registering a tool again.** The tool is listed twice in its space (registry.go:28-30, `Registry.ReRegisterDuplicates`).

## Model

| member | source | states |
|---|---|---|
| `Form.InferTypeByKind` | internal/platform/form.go:76 | Every field's default type is "text", whatever its name. |
| `Form.KeyOfNames` | internal/platform/form.go:54-71 | `KeyOf` recognises exactly the seven keys of the switch, and each recognised key is the name of the attribute it selects. |
| `Form.UpdateSetsOneAttribute` | internal/platform/form.go:54-71 | One pair sets the attribute its key names and leaves the other six unchanged. `required` compares with "true", and an empty `options` value sets nothing. |
| `Form.ParseTag` | internal/platform/form.go:42-74 | The loop over the tag's parts yields `SpecOf(fieldName, tag)`: the defaults with the tag's key/value pairs applied left to right, one attribute per recognised key. |
| `Form.EmptyTagDefaults` | internal/platform/form.go:43-46 | An empty tag gives `Name` = the field's declared name, `Type` = "text" (the value of `inferTypeByKind`, line 76), `Required` = false, and every other attribute empty. |
| `Form.KeyValueCutsAtFirstEquals` | internal/platform/form.go:49-53 | A part yields no pair exactly when its trimmed text has no `=`. Otherwise it yields `(k, v)` exactly when the trimmed text is `k=v` and `k` has no `=`, so any further `=` belongs to the value. |
| `Form.KeyValueWithoutEquals` | internal/platform/form.go:50-52 | A part without `=` yields no pair: trimming cannot bring one in. |
| `Form.PartWithoutEqualsIgnored` | internal/platform/form.go:48-52 | A part without `=` between two other tags contributes nothing to the pairs of the whole tag. |
| `Form.DescribeByLastValue` | internal/platform/form.go:54-71 | Each of the seven attributes is the value of the last pair that sets it, or its default when none does. `required` compares with "true", and `options` is split at each bar character. |
| `Form.LastValueIsLastTaker` | internal/platform/form.go:48-71 | The value a key ends up with is the value of the last pair that sets that key, and no value when no pair does. |
| `Form.LastValueAppend` | internal/platform/form.go:48-71 | For pairs `a + b`, a key takes its value from `b` if `b` sets it, and from `a` otherwise. |
| `Form.TagPairsAppend` | internal/platform/form.go:47-53 | Joining two tags with a comma joins their lists of pairs. |
| `Form.LaterTagOverrides` | internal/platform/form.go:48-71 | In `t1,t2`, every key `t2` sets takes `t2`'s value; every other key keeps `t1`'s. |
| `Form.UnrecognisedKeyIgnored` | internal/platform/form.go:54-71 | A pair whose key is not one of the seven recognised ones leaves the description unchanged, wherever it stands. |
| `Form.RequiredIsLiteralTrue` | internal/platform/form.go:61-62 | After `required=v`, `Required` holds exactly when `v` is the literal "true". |
| `Form.OptionsAssignment` | internal/platform/form.go:63-66 | `options=v` with `v` non-empty sets `Options` to the pieces of `v` between bar characters, in order. An empty `v` keeps the earlier `Options`. |
| `Form.ParseTagInvertsEncodeTag` | internal/platform/form.go:42-74 | A tag written from pairs with no stray separators parses back to exactly those pairs, so it describes the field as those pairs do. |
| `Form.SinglePairTag` | internal/platform/form.go:47-53 | A tag of one writable `k=v` part holds just the pair `(k, v)`. |
| `Form.EmptyNameOverride` | internal/platform/form.go:55-56 | `name=` renames a field to the empty string: nothing keeps form names non-empty. |
| `Binding.ExtractFields` | internal/platform/form.go:23-40 | For a pointer or a plain struct alike, the result is `Schema` of the field table: the specs of the exported fields, in declaration order. |
| `Binding.SchemaIsSpecs` | internal/platform/form.go:29-39 | The schema has one entry per exported field, and entry `k` is `SpecOf` of the `k`-th exported field's name and tag. |
| `Binding.ExportedMembers` | internal/platform/form.go:32-34 | A field appears among the exported fields exactly when it is declared and exported, so unexported fields never reach the schema. |
| `Binding.ExportedAppend` | internal/platform/form.go:30-38 | The walk is compositional: the exported fields of `a + b` are those of `a` followed by those of `b`. |
| `Binding.BindFormValues` | internal/platform/form.go:79-130 | A non-pointer target gives the "must be a pointer" error and changes nothing. For a pointer, the error is `ErrorOf`: the index of the first field whose number does not parse. Every field before that index holds its outcome applied to its old value, and every later field is unchanged. |
| `Binding.BindField` | internal/platform/form.go:87-127 | One iteration: the field's slot gets `Applied(outcome, old value)`, the other slots are untouched, and it reports failure exactly when the outcome is a parse failure. |
| `Binding.FieldOutcome` | internal/platform/form.go:87-101 | An unexported field is kept. Any other outcome comes from coercing the non-empty list submitted under the field's resolved name. |
| `Binding.Coerce` | internal/platform/form.go:102-127 | The coercion fails exactly when a signed field's `ParseInt` or an unsigned field's `ParseUint` fails. It keeps the field exactly for non-`[]string` slices and unsupported kinds. |
| `Binding.OutcomeAt` | internal/platform/form.go:86-127 | Entry `j` of `Outcomes` is what field `j` alone calls for: keep it when unexported, absent or empty, and otherwise coerce its values. |
| `Binding.FirstFailure` | internal/platform/form.go:106-111 | No index when no outcome fails; otherwise the least index whose outcome fails. |
| `Binding.ErrorOfReached` | internal/platform/form.go:86-129 | The bind reports no error exactly when it runs through all fields. Otherwise it reports the first failing field, where it stopped. |
| `Binding.CoerceFits` | internal/platform/form.go:102-127 | Every value the binder writes is one the field's kind can hold; an `int8` gets a value in [-128, 128). |
| `Binding.NoValuesKeepsEverything` | internal/platform/form.go:94-97 | An empty submission keeps every field and is no error, even for fields whose tag says `required=true`. |
| `Binding.OnlyOwnNameRead` | internal/platform/form.go:92-95 | A field's outcome is unchanged when the submission is cut down to the one entry under the name its tag resolves to. |
| `Binding.BinderReadsSchemaNames` | internal/platform/form.go:91-97 | The binder reads the `k`-th exported field under `Schema(...)[k].Name`, the very name the extracted schema shows for that field. |
| `Binding.OnlyFirstValueCounts` | internal/platform/form.go:103-124 | Every kind except `[]string` reads only the first submitted value. |
| `Binding.BoolSpellings` | internal/platform/form.go:122-124 | A bool is true for "on" and "true" and false for "off", "TRUE" and "1". |
| `Binding.IntRoundTrip` | internal/platform/form.go:105-108 | A 64-bit number written in decimal is stored cut to the field's width, and a number that fits the field is stored as itself. |
| `Binding.IntOverflowFails` | internal/platform/form.go:106-107 | A number outside the 64-bit range is a parse failure, even for a narrower field. |
| `Binding.UintRoundTrip` | internal/platform/form.go:109-112 | A 64-bit unsigned number written in decimal is stored cut to the field's width, and one that fits the field is stored as itself. |
| `Binding.UintRejectsSign` | internal/platform/form.go:110-111 | An unsigned field refuses a leading `-` or `+`: a parse failure, not a wrap-around. |
| `Binding.NarrowFieldsWrap` | internal/platform/form.go:108-112 | Truncation to 8 and 16 bits on examples: 200 becomes -56 in an `int8`, 256 becomes 0 in a `uint8`. |
| `Binding.NumbersNotTrimmed` | internal/platform/form.go:106-111 | Submitted numbers are not trimmed: any text that begins or ends with white space fails to parse, for signed and unsigned fields alike. |
| `GoStrings.SplitCount` | internal/platform/form.go:47 | `strings.Split` yields one piece more than the string has separators. |
| `GoStrings.TrimSpaceTrims` | internal/platform/form.go:49 | `TrimSpace` drops only white space, from both ends, keeps a contiguous middle, and leaves no white space at either end of it. |
| `GoStrings.SplitAtFirst` | internal/platform/form.go:49 | `SplitN(s, "=", 2)` yields two pieces exactly when `s` has an `=`. The pieces are `s` around its first `=`, and the first has none. |
| `GoStrings.TrimFuncIsTrim` | internal/platform/form.go:49 | `strings.TrimFunc`, on which `TrimSpace` is built, drops only characters satisfying its predicate, from both ends, and keeps a contiguous middle that neither begins nor ends with one. |
| `GoStrings.JoinOfSplit` | internal/platform/form.go:47 | Joining the pieces of `strings.Split` with the separator gives back the string. |
| `GoStrings.SplitOfJoin` | internal/platform/form.go:65 | Splitting a join of separator-free pieces gives back the pieces, such as the options of `options=a`, bar, `b`, bar, `c`. |
| `GoStrings.SplitAppend` | internal/platform/form.go:47 | Splitting at a separator between `a` and `b` is splitting `a` and `b` separately. |
| `GoStrings.SplitPiecesLackSep` | internal/platform/form.go:47 | No piece of a split holds the separator. |
| `GoStrconv.ParseIntOfFormat` | internal/platform/form.go:106 | `ParseInt` of the decimal spelling of a 64-bit signed number gives the number. |
| `GoStrconv.ParseUintOfFormat` | internal/platform/form.go:110 | `ParseUint` of the decimal spelling of a 64-bit unsigned number gives the number. |
| `GoStrconv.ParseUint` | internal/platform/form.go:110 | Parsing succeeds exactly for a non-empty run of decimal digits whose value is at most 2^64 - 1. It then gives that value. |
| `GoStrconv.ParseInt` | internal/platform/form.go:106 | Every success lies in the 64-bit signed range, and the empty string fails. |
| `Fields.TruncInt` | internal/platform/form.go:108 | `SetInt` stores a value in the field's signed range that agrees with the parsed number modulo 2^width. |
| `Fields.TruncUint` | internal/platform/form.go:112 | `SetUint` stores a value below 2^width that agrees with the parsed number modulo 2^width. |
| `Fields.Record.constructor` | tools/examples/text.go:21 | A fresh record holds Go's zero value of every field's kind. |
| `Registry.Catalog.constructor` | internal/platform/registry.go:18-22 | Both maps start empty, with no registrations. |
| `Registry.Catalog.RegisterTool` | internal/platform/registry.go:25-31 | The id entry is overwritten with `t`. `t` is appended to the end of its space's list, and no other id or space changes. The catalog keeps agreeing with the registrations, now one longer. |
| `Registry.Catalog.GetTool` | internal/platform/registry.go:34-38 | The tool last registered under `id`, and none (Go's nil) for an id never registered. |
| `Registry.Catalog.ListSpaces` | internal/platform/registry.go:41-49 | Every space with at least one registration, each exactly once, in no particular order. |
| `Registry.Catalog.ListToolsBySpace` | internal/platform/registry.go:52-56 | The registrations in `space` in registration order; empty for an unknown space. |
| `Registry.ByIdIsLastWithId` | internal/platform/registry.go:28 | The id map holds exactly the registered ids, each with the last tool registered under it. |
| `Registry.BySpaceIsInSpace` | internal/platform/registry.go:29-30 | The space index has a key exactly for the spaces registered in, each listing that space's registrations in order. |
| `Registry.InSpaceMembers` | internal/platform/registry.go:29-30 | A tool is listed in a space exactly when it was registered there. |
| `Registry.StoredToolListed` | internal/platform/registry.go:28-30 | The tool stored under an id is listed under its space. |
| `Registry.RegisterThenGet` | internal/platform/registry.go:28 | After registering `t`, looking up `t.id` finds `t`, and every other id finds what it found before. |
| `Registry.RegisterGrowsOneList` | internal/platform/registry.go:29-30 | Each registration grows its own space's list by exactly one tool at the end, and leaves every other space's list unchanged. |
| `Registry.ReRegisterDuplicates` | internal/platform/registry.go:28-30 | Registering the same tool twice leaves the id map as one registration does, but lists the tool twice in its space. |
| `ExampleTools.TextFormSchema` | tools/examples/text.go:10-13 | The text tool's schema: `Content` is a required textarea, and `Action` is a required select whose options are Upper, Lower and Title in that order. |
| `ExampleTools.SubmitTextForm` | tools/examples/text.go:10-13 | Binding content "hello" and the action list [Upper, Lower] into a fresh `TextForm` succeeds and stores "hello" and "Upper". |
| `ExampleTools.SubmitWithoutAction` | internal/platform/form.go:94-97 | A submission without the required `Action` still succeeds and leaves `Action` empty. |
| `ExampleTools.Register` | tools/examples/register.go:6-9 | Start-up registers the text tool, then the calculator. |
| `ExampleTools.StartUpLookups` | tools/examples/register.go:6-9 | After start-up: `text_tool` is found and an unknown id is not, "math" lists the calculator, an unknown space lists nothing, and the spaces are "content" and "math". |

## Left out

- Reflection itself is replaced by the explicit field table. This covers `reflect.ValueOf`, `Elem`, `PkgPath`, `Tag.Get("form")` and `CanSet`.
  - The tag is stored already extracted.
  - `CanSet` (form.go:98-101) holds for every exported field of an addressable struct, so it is not modelled as a separate check.
- `ExtractFields` and `BindFormValues` on a value that is not a struct, or on a nil pointer, panic in Go. The model only holds structs, so these panics are not modelled.
- The float branch of `BindFormValues` (form.go:113-116) is left out because it uses floating point. The field table has no float kind, so the calculator's `A` and `B` fields are not modelled.
- `BindFormValues` reports a parse failure only as the index of the failing field; `strconv`'s error message is not modelled. A non-pointer target gets one fixed error.
- The body of the loop in `BindFormValues` is a method of its own, `BindField`. `BindFormValues` returns at once when it reports a failure.
- Go's `int` and `uint` are taken to be 64 bits wide, as on the 64-bit platforms Go mostly runs on.
- `Registry.Catalog.ListToolsBySpace` returns the list as a value. Go returns the catalog's own slice (registry.go:55), so a caller that wrote into it would change the catalog. No caller in the repository writes into it.
- Strings are sequences of Unicode scalar values. UTF-8 byte offsets and invalid encodings are not modelled.
- A `[]string` field receives the submitted list as a value. The Go slice shares its backing array with the `url.Values` entry, and that aliasing is not modelled.
- Tools are compared as values (id, name, description, space). Go compares `FormTool` interface values by pointer. `FormStruct` and `Run` are not part of the catalog model.
- The catalog's `sync.RWMutex` is left out: each operation is one atomic step, with no concurrency.
- The package-level variables become one `Catalog` object, built by its constructor.
- `ListSpaces` iterates over a Go map in random order. The model picks the order nondeterministically and proves only membership, absence of duplicates and the count.
- `Registry.Catalog.GetTool`, `ListSpaces` and `ListToolsBySpace` require the catalog invariant `Valid()`, which every constructor and `RegisterTool` call establishes or keeps.
- The HTTP layer (main.go, view/routes.go: `ParseForm`, templates, routing) and the tools' `Run` methods are not part of this model. Those methods do float arithmetic and Unicode case mapping.
