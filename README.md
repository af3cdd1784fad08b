# arrow_schemagen in Dafny

A model of the two translators in `arrow_schemagen`. Each produces a list of
Apache Arrow field descriptors:

- **Avro translator.** `ArrowSchemaFromAvro`, `iterateFields`,
  `traverseNodes` and `AvroPrimitiveToArrowType` in `avro.go` turn an
  Apache Avro schema (a JSON document) into Arrow fields.
- **Map translator.** `ArrowSchemaFromMap`, `traverseMap` and
  `GoPrimitiveToArrowType` in `map.go` infer Arrow fields from a decoded
  `map[string]interface{}`.

Files:

- `json.dfy` (module `Json`): the decoded JSON tree. It also holds the depth
  measure that makes the mutual recursion of the Avro translator terminate.
- `arrow.dfy` (module `Arrow`): the Arrow output as a closed type sum plus
  `Field` and `Schema`.
- `results.dfy` (module `Results`): `Option`, `Result`, and the two ways a
  translation fails. `NoTopLevelFields` is the entry point's error.
  `Malformed` stands for the runtime panic of a failed Go type assertion.
- `strconv.dfy` (module `Strconv`): `strconv.FormatInt(i, 10)` for the enum
  metadata keys, and its inverse.
- `avro.dfy` (module `Avro`): the Avro translator in two forms.
  - Reference functions: `Walk` is iterateFields. `Resolve`, `ResolveObject`
    and `UnionScan` are traverseNodes.
  - Methods written as the source is, with its loops, its reused record and
    its symbol map. Most methods are proved equal to their function.
    `AppendNested` and `VisitNode` are proved against what `NestedFields` and
    `Walk` state about one node.
  - iterateFields' record `n` is declared once, outside the loop, and its
    nested-field list only grows. `Walk` threads that list explicitly as
    `acc`.
- `avro_properties.dfy` (module `AvroProperties`): what the Avro translator
  does with each shape of type value. It covers:
  - the priority `items` > `symbols` > `logicalType` > `size` > `values` >
    `fields`;
  - the enum symbol table;
  - the fall-through of unlisted logical types;
  - unions;
  - bare strings;
  - the nested fields that leak from one sibling into all later ones.
- `gomap.dfy` (module `GoMap`): the map translator.
  - Go's dynamic type is a `Kind` tag.
  - `traverseMap`'s map iteration is a loop that picks any remaining key.
  - Its contract, `Describes`, does not depend on the order the keys are
    visited in.
- `gomap_properties.dfy` (module `GoMapProperties`): what each kind of value
  turns into, and that every visiting order gives the same schema up to
  field order, at every depth.

## Model

| member | source | states |
|---|---|---|
| Strconv.FormatDecimal | avro.go:99 | the decimal text of an index is non-empty and made of digits only |
| Strconv.ParseFormatRoundTrip | avro.go:99 | reading back the decimal text of an index gives the index |
| Strconv.FormatDecimalInjective | avro.go:99-100 | two indices with the same text are equal, so no symbol overwrites another in the table |
| Strconv.FormatDecimalDistinct | avro.go:99-100 | every other index formats differently |
| Strconv.FirstIndices | avro.go:99 | indices 0, 1, 2 format as "0", "1", "2" |
| Avro.AvroPrimitiveToArrowType | avro.go:231-257 | int, long, float, double, bytes, boolean and string map as in the `AvroPrimitives` table; every other name ("null" and "record" included) gives Binary; never a dictionary or struct |
| Avro.LogicalArrowType | avro.go:116-173 | a type exactly for the eight names of the `LogicalTypes` table, namely that table's type; nothing for "decimal" or an unlisted name |
| Avro.IndexTypeFor | avro.go:102-111 | the index type is Uint8, Uint16, Uint32 or Uint64. It holds the count unless it is the Uint64 default. Every narrower candidate is too small. Uint64 is used only above 4294967295 |
| Avro.ObjectList | avro.go:28-29 | Ok exactly when the value is a list of objects, and then it is that list; otherwise Malformed |
| Avro.StringList | avro.go:98 | Ok exactly when the value is a list of strings, and then it is those strings in order; otherwise Malformed |
| Avro.AsStruct | avro.go:81 | definition: a struct field of the walked fields when the walk succeeds; the walk's error otherwise |
| Avro.IndexKeys | avro.go:97-101 | exactly N keys: the decimal text of every index below N, and of no index at or above N |
| Avro.IndexKeysOnly | avro.go:97-101 | every key is the decimal text of some index below N |
| Avro.SymbolTable | avro.go:96-101 | keys are "0".."N-1", N entries, key i maps to symbol i |
| Avro.SymbolTableStepValues | avro.go:98-101 | adding symbol N-1 keeps the entries of the symbols before it |
| Avro.SymbolTableGrows | avro.go:98-101 | one turn of the symbol loop adds the entry for the next index |
| Avro.EnumField | avro.go:112 | the enum field is nullable and a dictionary |
| Avro.Walk | avro.go:39-64 | one field per node, in input order, field i carries node i's name, every field is well-formed; a failure is Malformed |
| Avro.Resolve | avro.go:66-225 | the field keeps the node's name and is well-formed: nullable exactly when it is a dictionary, metadata only on a dictionary |
| Avro.ResolveObject | avro.go:85-191 | the same for an object type value |
| Avro.OwnFields | avro.go:185-189 | definition: no "fields" key gives an empty list |
| Avro.UnionScan | avro.go:194-222 | the same for a union |
| Avro.AvroSchema | avro.go:23-37 | NoTopLevelFields exactly when the top-level "fields" list is missing or empty; on success one field per top-level node, named as the node, each well formed |
| Avro.TopLevelFields | avro.go:27-31 | a document that is not an object or has no "fields" key gives an empty list; otherwise the list is the "fields" value, accepted exactly when it is a list of objects; Malformed otherwise |
| Avro.NestedFields | avro.go:47-59 | no "fields" key gives an empty list; an object value gives its own inner "fields" list; any other value is the list itself; accepted exactly when the list is a list of objects, Malformed otherwise |
| Avro.AppendObjects | avro.go:56-58 | the copy loop gives the accumulator followed by the list's objects, or Malformed at the first non-object |
| Avro.AppendNested | avro.go:47-60 | the accumulator grows by exactly the node's nested field definitions, wrapped or not |
| Avro.IterateFields | avro.go:39-64 | the loop with its reused record equals `Walk` from the first node with an empty accumulator |
| Avro.VisitNode | avro.go:43-61 | one turn: the rest of the walk is this field followed by the walk from the next node with the grown accumulator |
| Avro.TraverseNodes | avro.go:66-225 | equals `Resolve` |
| Avro.TraverseObject | avro.go:85-191 | equals `ResolveObject` |
| Avro.EnumDictionary | avro.go:96-113 | the symbol loop and the width switch give `EnumField` |
| Avro.TraverseUnion | avro.go:194-222 | equals `UnionScan` from the first alternative |
| Avro.ArrowSchemaFromAvro | avro.go:23-37 | equals `AvroSchema` |
| Avro.PrependNothing | avro.go:40 | loop-proof helper for IterateFields: an empty prefix changes no result |
| Avro.PrependStep | avro.go:61 | loop-proof helper for IterateFields: appending one field to the output is one more element of the prefix |
| Avro.OwnFieldsShallower | avro.go:185-190 | an object's own fields are no deeper than the object |
| Avro.NestedFieldsShallower | avro.go:47-59 | a node's nested fields are shallower than the node |
| Avro.WalkCons | avro.go:61 | one more well-formed field in front keeps the walk's contract |
| Avro.WalkMeasure | avro.go:43-61 | the node handed to traverseNodes is shallower than the walk that visits it |
| AvroProperties.ResolveObjectCase | avro.go:85-88 | an object type value is translated from the object alone; the accumulated fields play no part |
| AvroProperties.ResolveUnionCase | avro.go:194-196 | a union is translated by scanning its alternatives from the first |
| AvroProperties.ItemsComeFirst | avro.go:91-93 | with "items" present, a list of the primitive item type, whatever else the object carries |
| AvroProperties.EnumTranslation | avro.go:96-113 | with "symbols" and no "items": a nullable dictionary of strings with the count's index type and N metadata entries "0".."N-1" mapped to the symbols in order |
| AvroProperties.LogicalTypeTranslation | avro.go:116-173 | a listed logical type gives its table type |
| AvroProperties.UnlistedLogicalTypeFallsThrough | avro.go:116-191 | "decimal" or an unlisted logical type translates as if the key were absent |
| AvroProperties.FixedTranslation | avro.go:177-179 | "size" gives fixed-size binary of that width |
| AvroProperties.MapTranslation | avro.go:181-183 | "values" gives a map from strings to the primitive value type |
| AvroProperties.RecordObjectTranslation | avro.go:185-191 | otherwise a struct of the object's own "fields", empty when the key is absent |
| AvroProperties.NonNullStrings | avro.go:198-201 | the collected alternatives are no more than the alternatives and none is "null" |
| AvroProperties.UnionScanStrings | avro.go:196-222 | without object alternatives, the scan collects the non-"null" strings in order and then picks the type |
| AvroProperties.UnionOfStrings | avro.go:215-222 | one non-"null" string alternative gives its primitive type; zero or several give Binary |
| AvroProperties.UnionScanObject | avro.go:202-212 | the scan stops at the first object alternative with a struct of its own fields |
| AvroProperties.UnionFirstObjectWins | avro.go:202-212 | the first object alternative decides the union, whatever its "type" and the alternatives after it |
| AvroProperties.UnionExamples | avro.go:194-222 | ["null","string"] and ["string","null"] give String; ["string","int"] gives Binary |
| AvroProperties.BareStringType | avro.go:68-83 | a bare string with no accumulated fields maps through the primitive table. With accumulated fields, "record" gives a struct of them and any other name gives Binary |
| AvroProperties.OtherTypeIsBinary | avro.go:224 | a type that is not a string, object or list gives Binary |
| AvroProperties.NodeAt | avro.go:43-57 | definition: the record handed over for node k carries its name and the accumulated nested fields of nodes 0..k |
| AvroProperties.WalkAccumulates | avro.go:41-61 | from any start, output field k is traverseNodes of node k with everything accumulated so far |
| AvroProperties.FieldSeesAllEarlierNestedFields | avro.go:41-61 | output field k is traverseNodes of node k with the nested fields of ALL nodes 0..k |
| AvroProperties.AccumulatedGrows | avro.go:52-57 | the accumulator never shrinks: it holds at least the nested fields of every earlier node |
| AvroProperties.LeakedNodeIsBinary | avro.go:70-83 | a later bare-string node that is not "record" is Binary once an earlier node had nested fields |
| AvroProperties.NestedFieldsLeakIntoLaterSiblings | avro.go:41-83 | in the output, such a later field has type Binary even if its type is "int" |
| AvroProperties.WalkStepInverse | avro.go:42-61 | a successful walk named its node, read its nested fields, translated it and went on |
| AvroProperties.MissingTopLevelFields | avro.go:27-34 | a document without a non-empty top-level "fields" list gives NoTopLevelFields |
| AvroProperties.ColorEnumExample | avro.go:96-112 | the enum RED, GREEN, BLUE gives a nullable dictionary with a uint8 index and metadata "0"→RED, "1"→GREEN, "2"→BLUE |
| AvroProperties.ColorTable | avro.go:97-101 | the symbol table of RED, GREEN, BLUE |
| AvroProperties.ColorSymbols | avro.go:98 | the symbols list of that enum is read in order |
| AvroProperties.LongAndArrayExample | avro.go:70-92 | "long" gives Int64; an array of "string" gives a list of String |
| GoMap.GoPrimitiveToArrowType | map.go:56-91 | the switch is the `GoPrimitives` table (bool, string, int, int8..int64, uint, uint8..uint64, float32, float64); "nil" and every other name give Binary |
| GoMap.TypeName | map.go:27-38 | the name `reflect.TypeOf(v).String()` and `fmt.Sprintf("%T", v)` give: no value the map can hold is named "map" or "nil", so the "map" arm (map.go:29) and the "nil" case (map.go:86) never match; a value of an unlisted Go type has a name the translation sends to Binary |
| GoMap.NameTypeAgrees | map.go:56-91 | translating a value's `%T` name equals the by-kind reference `KindType`; objects, slices, nil and other types give Binary |
| GoMap.ScalarType | map.go:37-41 | a scalar of a listed kind gets its kind's type. nil, other types and unlisted kinds get Binary |
| GoMap.KeptKeys | map.go:26 | definition: the kept keys are exactly those whose value is not an empty slice |
| GoMap.EntryField | map.go:20-42 | the type switch yields a field named by the key that matches the value, and yields nothing exactly for an empty slice |
| GoMap.TraverseMap | map.go:17-45 | whatever order the keys are visited in, the result lists one matching field per kept key, under distinct names, and nothing else |
| GoMap.ArrowSchemaFromMap | map.go:12-15 | never an error; the schema's fields describe the map as above |
| GoMap.ProgressStep | map.go:19-43 | one loop turn extends the description by the key just visited |
| GoMap.DescribesAppend | map.go:19-42 | appending a matching field for a fresh key keeps the description valid |
| GoMap.DescribesSkip | map.go:26 | skipping an empty slice keeps the description valid |
| GoMap.DescribesNames | map.go:17-45 | a description names exactly the kept keys, each once, so the field count is the number of kept keys |
| GoMap.FieldMatchesKept | map.go:26 | only a kept value has a field |
| GoMap.NamesAppend | map.go:23 | appending a field adds its name |
| GoMap.DistinctNamesCount | map.go:19 | distinct names make as many names as fields |
| GoMapProperties.FirstElementDecides | map.go:26-33 | a non-empty slice gives a list of the first element's type; later elements never matter |
| GoMapProperties.EmptySliceHasNoField | map.go:26 | an empty slice yields no field |
| GoMapProperties.NarrowIntegers | map.go:33-41 | int8, int16, uint8 and uint16 scalars are Binary. As a first slice element the same kinds give List(Int8), List(Int16), List(Uint8), List(Uint16) |
| GoMapProperties.BinaryFallbacks | map.go:37-41 | nil, complex64, complex128 and values of other Go types give exactly Binary |
| GoMapProperties.NestedCollectionsInSlices | map.go:27-33 | a slice whose first element is an object or a slice gives a list of Binary |
| GoMapProperties.LeafFieldUnique | map.go:20-42 | a non-object value determines its field completely |
| GoMapProperties.OrderIndependent | map.go:19 | two traversals of one map agree up to the order of fields, at every level of nesting |
| GoMapProperties.OnlyEmptySlices | map.go:17-45 | a map of only empty slices gives an empty schema |

## Left out

- JSON decoding (`json.Unmarshal`, avro.go:26) is not modelled, and the error it ignores is not either. The Avro translator starts from the decoded tree `JValue`, where a missing key and JSON null are both `JNull`.
- The Arrow library constructors (`arrow.NewSchema`, `StructOf`, `ListOf`, `MapOf`, `MetadataFrom`) are replaced by plain values of `ArrowType`, `Field` and `Schema`. Metadata is a `map`, so the key order `MetadataFrom` produces is not modelled.
- Timestamp time zones and the `Ordered` flag of the dictionary type are not represented. They are constant in the source.
- A failed Go type assertion panics. The model returns `Err(Malformed)` at the point the assertion fails, and stops there as the panic does.
- avro.go:98 asserts `[]string`, which decoded JSON never holds, and avro.go:178 asserts `int`, although JSON numbers decode as `float64`. Both are modelled as the intended shapes: a list of strings, and a `JNum` with an integer value.
- avro.go:33 returns one value from a function with two results, which does not compile. It is modelled as the intended error result, `Err(NoTopLevelFields)`.
- "local-timestamp-millis" gives a millisecond timestamp, `TimestampMs` (avro.go:155-156).
- An object type value with none of the special keys becomes a struct of the object's own "fields" (avro.go:86, 185-191). The struct is built in a fresh record, so the caller's accumulated fields are not used.
- Reflection and `fmt.Sprintf("%T")` (map.go:27, map.go:38) are abstracted as the `Kind` tag and `TypeName`. A value of any other Go type is `Other` with a name the translation table does not list.
- The "map" arm at map.go:29-30 is not modelled: reflection never names a type "map", so that arm cannot run.
- TraverseMap: requires that no slice reached through nested objects starts with nil (`Traversable`), because map.go:27 would call `String()` on a nil `reflect.Type` and panic.
- The order of the fields `traverseMap` returns is not modelled, because Go randomises map iteration (map.go:19). The contract describes the result for every order, and `OrderIndependent` shows any two results agree up to order.
- Go's `int` and `uint` are mapped to 32-bit Arrow types (map.go:62-63, map.go:72-73) exactly as written; no integer values are computed anywhere, so widths appear only as type tags.
