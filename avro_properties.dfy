/** What avro.go's translation promises, stated over the functions of module
    Avro: the priority among the keys of an object type, the logical-type
    table and its fall-through, unions, the bare-string rules, and the
    accumulated nested fields that iterateFields carries from one node to
    the next. */
module AvroProperties {
  import opened Json
  import opened Arrow
  import opened Strconv
  import opened Results
  import opened Avro

  /** traverseNodes on an object type value: only the object matters. */
  lemma ResolveObjectCase(name: string, t: map<string, JValue>, acc: seq<JValue>)
    ensures Resolve(Record(name, JObj(t), acc)) == ResolveObject(name, t)
  {
  }

  /** traverseNodes on a union: the scan from its first alternative. */
  lemma ResolveUnionCase(name: string, alts: seq<JValue>, acc: seq<JValue>)
    ensures Resolve(Record(name, JArr(alts), acc)) == UnionScan(name, alts, 0, [])
  {
  }

  // ---------------------------------------------------------------------
  // Object type values: items > symbols > logicalType > size > values > fields
  // ---------------------------------------------------------------------

  /** An array type: a list of the primitive item type, whatever else the
      object carries (symbols included). */
  lemma ItemsComeFirst(name: string, t: map<string, JValue>, acc: seq<JValue>)
    requires "items" in t && t["items"].JStr?
    ensures Resolve(Record(name, JObj(t), acc)) == Ok(Plain(name, List(AvroPrimitiveToArrowType(t["items"].s))))
  {
    ResolveObjectCase(name, t, acc);
  }

  /** An enum: a dictionary whose index type follows the symbol count, the
      only nullable field, with metadata "0".."N-1" mapped to the symbols in
      order. */
  lemma EnumTranslation(name: string, t: map<string, JValue>, acc: seq<JValue>, symbols: seq<string>)
    requires "items" !in t && "symbols" in t && StringList(t["symbols"]) == Ok(symbols)
    ensures var r := Resolve(Record(name, JObj(t), acc));
      && r.Ok? && r.value.name == name && r.value.nullable
      && r.value.ty == Dictionary(IndexTypeFor(|symbols|), Utf8)
      && |r.value.metadata| == |symbols|
      && r.value.metadata.Keys == IndexKeys(|symbols|)
      && forall i :: 0 <= i < |symbols| ==> r.value.metadata[FormatDecimal(i)] == symbols[i]
  {
    ResolveObjectCase(name, t, acc);
    assert ResolveObject(name, t) == Ok(EnumField(name, symbols));
    var table := SymbolTable(symbols);
    assert EnumField(name, symbols) == Field(name, Dictionary(IndexTypeFor(|symbols|), Utf8), true, table);
  }

  /** A listed logical type is translated by the logical-type table. */
  lemma LogicalTypeTranslation(name: string, t: map<string, JValue>, acc: seq<JValue>)
    requires "items" !in t && "symbols" !in t
    requires "logicalType" in t && t["logicalType"].JStr? && t["logicalType"].s in LogicalTypes
    ensures Resolve(Record(name, JObj(t), acc)) == Ok(Plain(name, LogicalTypes[t["logicalType"].s]))
  {
    ResolveObjectCase(name, t, acc);
  }

  /** "decimal" and every unlisted logical type are as if the key were not
      there: the checks for size, values and fields decide. */
  lemma UnlistedLogicalTypeFallsThrough(name: string, t: map<string, JValue>, acc: seq<JValue>)
    requires "items" !in t && "symbols" !in t
    requires "logicalType" in t && t["logicalType"].JStr? && t["logicalType"].s !in LogicalTypes
    ensures Resolve(Record(name, JObj(t), acc)) == Resolve(Record(name, JObj(t - {"logicalType"}), acc))
  {
    ResolveObjectCase(name, t, acc);
    var u := t - {"logicalType"};
    ResolveObjectCase(name, u, acc);
    assert "items" !in u && "symbols" !in u && "logicalType" !in u;
    assert forall k :: k != "logicalType" ==> (k in u <==> k in t);
    assert OwnFields(u) == OwnFields(t);
  }

  /** Without a translated logical type, a "size" gives fixed-size binary. */
  lemma FixedTranslation(name: string, t: map<string, JValue>, acc: seq<JValue>)
    requires "items" !in t && "symbols" !in t && "logicalType" !in t
    requires "size" in t && t["size"].JNum?
    ensures Resolve(Record(name, JObj(t), acc)) == Ok(Plain(name, FixedSizeBinary(t["size"].n)))
  {
    ResolveObjectCase(name, t, acc);
  }

  /** A map type: string keys, primitive value type. */
  lemma MapTranslation(name: string, t: map<string, JValue>, acc: seq<JValue>)
    requires "items" !in t && "symbols" !in t && "logicalType" !in t && "size" !in t
    requires "values" in t && t["values"].JStr?
    ensures Resolve(Record(name, JObj(t), acc)) == Ok(Plain(name, Map(Utf8, AvroPrimitiveToArrowType(t["values"].s))))
  {
    ResolveObjectCase(name, t, acc);
  }

  /** Otherwise a struct of the object's own "fields" (empty without them);
      the nested fields accumulated by the caller are not used. */
  lemma RecordObjectTranslation(name: string, t: map<string, JValue>, acc: seq<JValue>)
    requires "items" !in t && "symbols" !in t && "logicalType" !in t && "size" !in t && "values" !in t
    ensures "fields" !in t ==> Resolve(Record(name, JObj(t), acc)) == Ok(Plain(name, Struct([])))
    ensures "fields" in t && ObjectList(t["fields"]).Ok? ==>
      Resolve(Record(name, JObj(t), acc)) == AsStruct(name, Walk(t["fields"].elems, 0, []))
  {
    ResolveObjectCase(name, t, acc);
    assert Walk([], 0, []) == Ok([]);
  }

  // ---------------------------------------------------------------------
  // Unions
  // ---------------------------------------------------------------------

  /** The string alternatives of a union other than "null", in order. */
  function NonNullStrings(alts: seq<JValue>): (r: seq<string>)
    ensures |r| <= |alts|
    ensures forall i :: 0 <= i < |r| ==> r[i] != "null"
  {
    if alts == [] then []
    else if alts[0].JStr? && alts[0].s != "null" then [alts[0].s] + NonNullStrings(alts[1..])
    else NonNullStrings(alts[1..])
  }

  /** The type a union without object alternatives resolves to. */
  function UnionPrimitive(candidates: seq<string>): ArrowType
  {
    if |candidates| == 1 then AvroPrimitiveToArrowType(candidates[0]) else Binary
  }

  lemma {:induction false} UnionScanStrings(name: string, alts: seq<JValue>, j: nat, unionTypes: seq<string>)
    requires j <= |alts|
    requires forall k :: j <= k < |alts| ==> !alts[k].JObj?
    ensures UnionScan(name, alts, j, unionTypes) == Ok(Plain(name, UnionPrimitive(unionTypes + NonNullStrings(alts[j..]))))
    decreases |alts| - j
  {
    if j == |alts| {
      assert alts[j..] == [];
      assert unionTypes + [] == unionTypes;
    } else {
      assert alts[j..][1..] == alts[j + 1..];
      if alts[j].JStr? {
        var s := alts[j].s;
        var next := if s != "null" then unionTypes + [s] else unionTypes;
        UnionScanStrings(name, alts, j + 1, next);
        if s != "null" {
          assert next + NonNullStrings(alts[j + 1..]) == unionTypes + NonNullStrings(alts[j..]);
        }
      } else {
        UnionScanStrings(name, alts, j + 1, unionTypes);
      }
    }
  }

  /** A union without object alternatives: exactly one non-"null" string
      alternative gives its primitive type, none or several give Binary. */
  lemma UnionOfStrings(name: string, alts: seq<JValue>, acc: seq<JValue>)
    requires forall k :: 0 <= k < |alts| ==> !alts[k].JObj?
    ensures Resolve(Record(name, JArr(alts), acc)) == Ok(Plain(name, UnionPrimitive(NonNullStrings(alts))))
  {
    UnionScanStrings(name, alts, 0, []);
    assert alts[0..] == alts;
    ResolveUnionCase(name, alts, acc);
    var none: seq<string> := [];
    assert none + NonNullStrings(alts) == NonNullStrings(alts);
  }

  /** The struct a union object alternative resolves to. */
  function ObjectAlternative(name: string, m: map<string, JValue>): Result<Field>
    requires OwnFields(m).Ok?
  {
    AsStruct(name, Walk(OwnFields(m).value, 0, []))
  }

  lemma {:induction false} UnionScanObject(name: string, alts: seq<JValue>, j: nat, unionTypes: seq<string>, k: nat)
    requires j <= k < |alts| && alts[k].JObj? && OwnFields(alts[k].members).Ok?
    requires forall i :: j <= i < k ==> !alts[i].JObj?
    ensures UnionScan(name, alts, j, unionTypes) == ObjectAlternative(name, alts[k].members)
    decreases k - j
  {
    if j < k {
      if alts[j].JStr? {
        var s := alts[j].s;
        UnionScanObject(name, alts, j + 1, if s != "null" then unionTypes + [s] else unionTypes, k);
      } else {
        UnionScanObject(name, alts, j + 1, unionTypes, k);
      }
    }
  }

  /** The first object alternative decides the union: a struct of its own
      "fields", whatever its "type" and whatever the other alternatives. */
  lemma UnionFirstObjectWins(name: string, alts: seq<JValue>, acc: seq<JValue>, k: nat)
    requires k < |alts| && alts[k].JObj? && OwnFields(alts[k].members).Ok?
    requires forall i :: 0 <= i < k ==> !alts[i].JObj?
    ensures Resolve(Record(name, JArr(alts), acc)) == ObjectAlternative(name, alts[k].members)
  {
    UnionScanObject(name, alts, 0, [], k);
    ResolveUnionCase(name, alts, acc);
  }

  /** The nullable idiom in either order, and a union of two types. */
  lemma UnionExamples(acc: seq<JValue>)
    ensures Resolve(Record("f", JArr([JStr("null"), JStr("string")]), acc)) == Ok(Plain("f", Utf8))
    ensures Resolve(Record("f", JArr([JStr("string"), JStr("null")]), acc)) == Ok(Plain("f", Utf8))
    ensures Resolve(Record("f", JArr([JStr("string"), JStr("int")]), acc)) == Ok(Plain("f", Binary))
  {
    var a1 := [JStr("null"), JStr("string")];
    var a2 := [JStr("string"), JStr("null")];
    var a3 := [JStr("string"), JStr("int")];
    UnionOfStrings("f", a1, acc);
    UnionOfStrings("f", a2, acc);
    UnionOfStrings("f", a3, acc);
    assert NonNullStrings(a1) == ["string"] by {
      assert a1[1..] == [JStr("string")];
      assert a1[1..][1..] == [];
    }
    assert NonNullStrings(a2) == ["string"] by {
      assert a2[1..] == [JStr("null")];
      assert a2[1..][1..] == [];
    }
    assert NonNullStrings(a3) == ["string", "int"] by {
      assert a3[1..] == [JStr("int")];
      assert a3[1..][1..] == [];
    }
  }

  // ---------------------------------------------------------------------
  // Bare strings and other shapes
  // ---------------------------------------------------------------------

  /** A bare-string type: the primitive table when no nested fields have
      been accumulated; with accumulated fields a struct of them for
      "record", and Binary for any other name. */
  lemma BareStringType(name: string, s: string, acc: seq<JValue>)
    ensures acc == [] ==> Resolve(Record(name, JStr(s), acc)) == Ok(Plain(name, AvroPrimitiveToArrowType(s)))
    ensures acc != [] && s == "record" ==> Resolve(Record(name, JStr(s), acc)) == AsStruct(name, Walk(acc, 0, []))
    ensures acc != [] && s != "record" ==> Resolve(Record(name, JStr(s), acc)) == Ok(Plain(name, Binary))
  {
  }

  /** A type that is neither a string, an object nor a list is Binary. */
  lemma OtherTypeIsBinary(name: string, v: JValue, acc: seq<JValue>)
    requires !v.JStr? && !v.JObj? && !v.JArr?
    ensures Resolve(Record(name, v, acc)) == Ok(Plain(name, Binary))
  {
  }

  // ---------------------------------------------------------------------
  // The accumulator of iterateFields
  // ---------------------------------------------------------------------

  /** The nested field definitions node `v` contributes, if well shaped. */
  function NestedOf(v: JValue): seq<JValue>
  {
    if v.JObj? && NestedFields(v.members).Ok? then NestedFields(v.members).value else []
  }

  /** The accumulator after the first `n` nodes of `f`: the concatenation
      of their nested field definitions. */
  function Accumulated(f: seq<JValue>, n: nat): seq<JValue>
    requires n <= |f|
  {
    if n == 0 then [] else Accumulated(f, n - 1) + NestedOf(f[n - 1])
  }

  /** The node iterateFields hands to traverseNodes for `f[k]`: its name,
      its type value, and every nested field definition seen so far. */
  function NodeAt(f: seq<JValue>, k: nat): (node: Record)
    requires k < |f| && HasName(f[k])
    ensures node.name == f[k].members["name"].s && node.fields == Accumulated(f, k + 1)
  {
    Record(f[k].members["name"].s, Member(f[k].members, "type"), Accumulated(f, k + 1))
  }

  lemma {:induction false} WalkAccumulates(f: seq<JValue>, i: nat, k: nat)
    requires i <= k < |f|
    requires Walk(f, i, Accumulated(f, i)).Ok?
    ensures HasName(f[k]) && Resolve(NodeAt(f, k)).Ok?
    ensures Walk(f, i, Accumulated(f, i)).value[k - i] == Resolve(NodeAt(f, k)).value
    decreases k - i
  {
    var acc := Accumulated(f, i);
    WalkStepInverse(f, i, acc);
    var m := f[i].members;
    var acc' := acc + NestedFields(m).value;
    assert acc' == Accumulated(f, i + 1);
    var field := Resolve(Record(m["name"].s, Member(m, "type"), acc')).value;
    var rest := Walk(f, i + 1, acc').value;
    var all := Walk(f, i, acc).value;
    assert all == [field] + rest;
    if i < k {
      WalkAccumulates(f, i + 1, k);
      assert all[k - i] == rest[k - (i + 1)];
    }
  }

  /** Field k of iterateFields' result is traverseNodes of node k with ALL
      the nested field definitions of nodes 0..k, not only its own. */
  lemma FieldSeesAllEarlierNestedFields(f: seq<JValue>, k: nat)
    requires k < |f| && Walk(f, 0, []).Ok?
    ensures HasName(f[k]) && Resolve(NodeAt(f, k)).Ok?
    ensures Walk(f, 0, []).value[k] == Resolve(NodeAt(f, k)).value
  {
    WalkAccumulates(f, 0, k);
  }

  lemma {:induction false} AccumulatedGrows(f: seq<JValue>, j: nat, k: nat)
    requires j < k <= |f|
    ensures |Accumulated(f, k)| >= |NestedOf(f[j])|
    decreases k - j
  {
    assert Accumulated(f, k) == Accumulated(f, k - 1) + NestedOf(f[k - 1]);
    if j + 1 < k {
      AccumulatedGrows(f, j, k - 1);
    }
  }

  /** With nested fields from an earlier node in the accumulator, a bare
      string type other than "record" resolves to Binary. */
  lemma LeakedNodeIsBinary(f: seq<JValue>, j: nat, k: nat)
    requires j < k < |f| && NestedOf(f[j]) != []
    requires HasName(f[k]) && Member(f[k].members, "type").JStr? && Member(f[k].members, "type").s != "record"
    ensures Resolve(NodeAt(f, k)) == Ok(Plain(f[k].members["name"].s, Binary))
  {
    AccumulatedGrows(f, j, k + 1);
    var node := NodeAt(f, k);
    BareStringType(node.name, node.ofType.s, node.fields);
  }

  /** Once an earlier node has nested fields, every later node whose type is
      a bare string other than "record" comes out Binary, even "int". */
  lemma NestedFieldsLeakIntoLaterSiblings(f: seq<JValue>, j: nat, k: nat)
    requires j < k < |f| && Walk(f, 0, []).Ok?
    requires NestedOf(f[j]) != []
    requires HasName(f[k]) && Member(f[k].members, "type").JStr? && Member(f[k].members, "type").s != "record"
    ensures Walk(f, 0, []).value[k].ty == Binary
  {
    FieldSeesAllEarlierNestedFields(f, k);
    LeakedNodeIsBinary(f, j, k);
  }

  /** One node of a walk that succeeded. */
  lemma WalkStepInverse(f: seq<JValue>, i: nat, acc: seq<JValue>)
    requires i < |f| && Walk(f, i, acc).Ok?
    ensures HasName(f[i]) && NestedFields(f[i].members).Ok?
    ensures var acc' := acc + NestedFields(f[i].members).value;
      var node := Record(f[i].members["name"].s, Member(f[i].members, "type"), acc');
      && Resolve(node).Ok? && Walk(f, i + 1, acc').Ok?
      && Walk(f, i, acc).value == [Resolve(node).value] + Walk(f, i + 1, acc').value
  {
  }

  // ---------------------------------------------------------------------
  // The entry point
  // ---------------------------------------------------------------------

  /** A document without a non-empty top-level "fields" list is refused. */
  lemma MissingTopLevelFields(doc: JValue)
    requires !doc.JObj? || "fields" !in doc.members || doc.members["fields"] == JArr([])
    ensures AvroSchema(doc) == Err(NoTopLevelFields)
  {
  }

  /** An enum of three symbols: a uint8 index, positions "0".."2" as
      metadata keys. */
  lemma ColorEnumExample()
    ensures Resolve(Record("color", JObj(map["type" := JStr("enum"), "symbols" := JArr([JStr("RED"), JStr("GREEN"), JStr("BLUE")])]), []))
      == Ok(Field("color", Dictionary(Uint8, Utf8), true, map["0" := "RED", "1" := "GREEN", "2" := "BLUE"]))
  {
    var t := map["type" := JStr("enum"), "symbols" := JArr([JStr("RED"), JStr("GREEN"), JStr("BLUE")])];
    var symbols := ["RED", "GREEN", "BLUE"];
    ColorSymbols();
    ResolveObjectCase("color", t, []);
    assert ResolveObject("color", t) == Ok(EnumField("color", symbols));
    ColorTable();
    assert IndexTypeFor(3) == Uint8;
  }

  lemma ColorTable()
    ensures SymbolTable(["RED", "GREEN", "BLUE"]) == map["0" := "RED", "1" := "GREEN", "2" := "BLUE"]
  {
    var table := SymbolTable(["RED", "GREEN", "BLUE"]);
    FirstIndices();
    assert IndexKeys(3) == {"0", "1", "2"} by {
      assert IndexKeys(1) == {"0"};
      assert IndexKeys(2) == {"0", "1"};
    }
    assert table["0"] == "RED" && table["1"] == "GREEN" && table["2"] == "BLUE";
  }

  lemma ColorSymbols()
    ensures StringList(JArr([JStr("RED"), JStr("GREEN"), JStr("BLUE")])) == Ok(["RED", "GREEN", "BLUE"])
  {
    var sv := JArr([JStr("RED"), JStr("GREEN"), JStr("BLUE")]);
    assert sv.elems[0] == JStr("RED") && sv.elems[1] == JStr("GREEN") && sv.elems[2] == JStr("BLUE");
    assert StringList(sv).Ok?;
    var v := StringList(sv).value;
    assert |v| == 3 && v[0] == "RED" && v[1] == "GREEN" && v[2] == "BLUE";
    assert v == ["RED", "GREEN", "BLUE"];
  }

  /** A long, and an array of strings. */
  lemma LongAndArrayExample()
    ensures Resolve(Record("id", JStr("long"), [])) == Ok(Plain("id", Int64))
    ensures Resolve(Record("tags", JObj(map["type" := JStr("array"), "items" := JStr("string")]), []))
      == Ok(Plain("tags", List(Utf8)))
  {
    BareStringType("id", "long", []);
    ItemsComeFirst("tags", map["type" := JStr("array"), "items" := JStr("string")], []);
  }
}
