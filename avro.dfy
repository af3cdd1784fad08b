/** Translation of an Apache Avro schema (already decoded from JSON) into a
    list of Arrow fields, as avro.go does it.

    The functions below are the reference semantics: `Walk` is iterateFields,
    `Resolve` (with `ResolveObject` and `UnionScan`) is traverseNodes.  The
    methods after them are the same operations written as the source writes
    them, with its loops.  Most are proved equal to their function;
    `AppendNested` and `VisitNode`, which handle one node, are proved against
    what `NestedFields` and `Walk` state about that node. */
module Avro {
  import opened Json
  import opened Arrow
  import opened Strconv
  import opened Results

  /** The working record of iterateFields and traverseNodes. */
  datatype Record = Record(name: string, ofType: JValue, fields: seq<JValue>)

  // ---------------------------------------------------------------------
  // Lookup tables
  // ---------------------------------------------------------------------

  /** The Avro primitive type names that have an Arrow counterpart. */
  const AvroPrimitives: map<string, ArrowType> := map[
    "int" := Int32,
    "long" := Int64,
    "float" := Float32,
    "double" := Float64,
    "bytes" := FixedSizeBinary(8),
    "boolean" := Boolean,
    "string" := Utf8
  ]

  /** AvroPrimitiveToArrowType: the table above, Binary for every other name. */
  function AvroPrimitiveToArrowType(avroFieldType: string): (t: ArrowType)
    ensures avroFieldType in AvroPrimitives ==> t == AvroPrimitives[avroFieldType]
    ensures avroFieldType !in AvroPrimitives ==> t == Binary
    ensures !t.Dictionary? && !t.Struct?
  {
    match avroFieldType
    case "int" => Int32
    case "long" => Int64
    case "float" => Float32
    case "double" => Float64
    case "bytes" => FixedSizeBinary(8)
    case "boolean" => Boolean
    case "string" => Utf8
    case _ => Binary
  }

  /** The Avro logical types that are translated on their own. */
  const LogicalTypes: map<string, ArrowType> := map[
    "uuid" := Utf8,
    "date" := Date32,
    "time-millis" := Time32ms,
    "time-micros" := Time64us,
    "timestamp-micros" := TimestampUs,
    "local-timestamp-millis" := TimestampMs,
    "local-timestamp-micros" := TimestampUs,
    "duration" := MonthDayNanoInterval
  ]

  /** The switch on `logicalType`: a type for the listed names, nothing for
      "decimal" and for any other name, which fall through to later checks. */
  function LogicalArrowType(logicalType: string): (t: Option<ArrowType>)
    ensures t.Some? <==> logicalType in LogicalTypes
    ensures t.Some? ==> t.value == LogicalTypes[logicalType]
  {
    match logicalType
    case "decimal" => None
    case "uuid" => Some(Utf8)
    case "date" => Some(Date32)
    case "time-millis" => Some(Time32ms)
    case "time-micros" => Some(Time64us)
    case "timestamp-micros" => Some(TimestampUs)
    case "local-timestamp-millis" => Some(TimestampMs)
    case "local-timestamp-micros" => Some(TimestampUs)
    case "duration" => Some(MonthDayNanoInterval)
    case _ => None
  }

  /** The index type of an enum's dictionary, chosen from the number of
      entries in its symbol table: the narrowest of Uint8, Uint16 and Uint32
      whose largest value is at least `count`, else the default Uint64. */
  function IndexTypeFor(count: nat): (t: ArrowType)
    ensures t in IndexTypes
    ensures t != Uint64 ==> count <= UnsignedMax(t)
    ensures forall j :: 0 <= j < |IndexTypes| && UnsignedMax(IndexTypes[j]) < UnsignedMax(t) ==>
      UnsignedMax(IndexTypes[j]) < count
    ensures count <= UnsignedMax(Uint64) ==> count <= UnsignedMax(t)
  {
    if count <= 0xFF then Uint8
    else if count <= 0xFFFF then Uint16
    else if count <= 0xFFFF_FFFF then Uint32
    else Uint64
  }

  // ---------------------------------------------------------------------
  // Shape checks (Go type assertions)
  // ---------------------------------------------------------------------

  predicate AllObjects(s: seq<JValue>)
  {
    forall i :: 0 <= i < |s| ==> s[i].JObj?
  }

  /** `v.([]interface{})` and then `.(map[string]interface{})` on each element. */
  function ObjectList(v: JValue): (r: Result<seq<JValue>>)
    ensures r.Ok? <==> v.JArr? && AllObjects(v.elems)
    ensures r.Ok? ==> v == JArr(r.value)
    ensures r.Err? ==> r.error == Malformed
  {
    if v.JArr? && AllObjects(v.elems) then Ok(v.elems) else Err(Malformed)
  }

  /** The enum's `symbols` list, asserted to be a list of strings. */
  function StringList(v: JValue): (r: Result<seq<string>>)
    ensures r.Ok? <==> v.JArr? && forall i :: 0 <= i < |v.elems| ==> v.elems[i].JStr?
    ensures r.Ok? ==> |r.value| == |v.elems| && forall i :: 0 <= i < |v.elems| ==> v.elems[i] == JStr(r.value[i])
    ensures r.Err? ==> r.error == Malformed
  {
    if v.JArr? && forall i :: 0 <= i < |v.elems| ==> v.elems[i].JStr? then
      Ok(seq(|v.elems|, i requires 0 <= i < |v.elems| => v.elems[i].s))
    else
      Err(Malformed)
  }

  /** The nested field definitions a field node carries under "fields":
      either the list itself, or the "fields" list of a wrapping object. */
  function NestedFields(m: map<string, JValue>): (r: Result<seq<JValue>>)
    ensures "fields" !in m ==> r == Ok([])
    ensures "fields" in m && m["fields"].JObj? ==>
      (r.Ok? <==> Member(m["fields"].members, "fields").JArr? && AllObjects(Member(m["fields"].members, "fields").elems))
    ensures "fields" in m && !m["fields"].JObj? ==> (r.Ok? <==> m["fields"].JArr? && AllObjects(m["fields"].elems))
    ensures r.Ok? && "fields" in m && m["fields"].JObj? ==> Member(m["fields"].members, "fields") == JArr(r.value)
    ensures r.Ok? && "fields" in m && !m["fields"].JObj? ==> m["fields"] == JArr(r.value)
    ensures r.Err? ==> r.error == Malformed
  {
    if "fields" !in m then Ok([])
    else match m["fields"]
      case JObj(inner) => ObjectList(Member(inner, "fields"))
      case nf => ObjectList(nf)
  }

  function AsStruct(name: string, fields: Result<seq<Field>>): (r: Result<Field>)
    ensures fields.Ok? <==> r.Ok?
    ensures r.Ok? ==> r.value == Plain(name, Struct(fields.value))
    ensures r.Err? ==> r.error == fields.error
  {
    match fields
    case Ok(fs) => Ok(Plain(name, Struct(fs)))
    case Err(e) => Err(e)
  }

  // ---------------------------------------------------------------------
  // The enum symbol table
  // ---------------------------------------------------------------------

  /** The keys "0", ..., "n-1". */
  function IndexKeys(n: nat): (keys: set<string>)
    ensures |keys| == n
    ensures forall i :: 0 <= i < n ==> FormatDecimal(i) in keys
    ensures forall i: nat :: i >= n ==> FormatDecimal(i) !in keys
  {
    if n == 0 then {}
    else
      var prev := IndexKeys(n - 1);
      FormatDecimalDistinct(n - 1);
      prev + {FormatDecimal(n - 1)}
  }

  /** Nothing but the decimal texts of 0 .. n-1 is among the keys. */
  lemma {:induction false} IndexKeysOnly(n: nat, k: string)
    requires k in IndexKeys(n)
    ensures exists i :: 0 <= i < n && k == FormatDecimal(i)
  {
    assert n != 0;
    var prev := IndexKeys(n - 1);
    assert IndexKeys(n) == prev + {FormatDecimal(n - 1)};
    if k == FormatDecimal(n - 1) {
      assert 0 <= n - 1 < n && k == FormatDecimal(n - 1);
    } else {
      assert k in prev;
      IndexKeysOnly(n - 1, k);
      var i :| 0 <= i < n - 1 && k == FormatDecimal(i);
      assert 0 <= i < n && k == FormatDecimal(i);
    }
  }

  /** The metadata of an enum field: the decimal position of each symbol
      mapped to the symbol, filled in input order. */
  function SymbolTable(symbols: seq<string>): (table: map<string, string>)
    ensures table.Keys == IndexKeys(|symbols|)
    ensures |table| == |symbols|
    ensures forall i :: 0 <= i < |symbols| ==> table[FormatDecimal(i)] == symbols[i]
    decreases |symbols|
  {
    if symbols == [] then map[]
    else
      var n := |symbols| - 1;
      var prefix := SymbolTable(symbols[..n]);
      SymbolTableStepValues(symbols, prefix);
      prefix[FormatDecimal(n) := symbols[n]]
  }

  lemma SymbolTableStepValues(symbols: seq<string>, prefix: map<string, string>)
    requires symbols != []
    requires forall i :: 0 <= i < |symbols| - 1 ==> FormatDecimal(i) in prefix
    requires forall i :: 0 <= i < |symbols| - 1 ==> prefix[FormatDecimal(i)] == symbols[..|symbols| - 1][i]
    ensures var table := prefix[FormatDecimal(|symbols| - 1) := symbols[|symbols| - 1]];
      forall i :: 0 <= i < |symbols| ==> table[FormatDecimal(i)] == symbols[i]
  {
    var n := |symbols| - 1;
    var table := prefix[FormatDecimal(n) := symbols[n]];
    forall i | 0 <= i < |symbols| ensures table[FormatDecimal(i)] == symbols[i] {
      if i < n {
        if FormatDecimal(i) == FormatDecimal(n) {
          FormatDecimalInjective(i, n);
        }
        assert symbols[..n][i] == symbols[i];
      }
    }
  }

  lemma SymbolTableGrows(list: seq<string>, index: nat)
    requires index < |list|
    ensures SymbolTable(list[..index + 1]) == SymbolTable(list[..index])[FormatDecimal(index) := list[index]]
  {
    assert list[..index + 1][..index] == list[..index];
  }

  /** The field traverseNodes returns for an enum. */
  function EnumField(name: string, symbols: seq<string>): (f: Field)
    ensures f.nullable && f.ty.Dictionary?
  {
    var table := SymbolTable(symbols);
    Field(name, Dictionary(IndexTypeFor(|table|), Utf8), true, table)
  }

  // ---------------------------------------------------------------------
  // iterateFields and traverseNodes
  // ---------------------------------------------------------------------

  /** What every field produced by the translator satisfies: only an enum
      is nullable, and only an enum carries metadata. */
  predicate WellFormedField(f: Field)
  {
    && (f.nullable <==> f.ty.Dictionary?)
    && (!f.ty.Dictionary? ==> f.metadata == map[])
  }

  /** The name of field node `v`, when it has one. */
  predicate HasName(v: JValue)
  {
    v.JObj? && "name" in v.members && v.members["name"].JStr?
  }

  /** iterateFields from position `i` on, with `acc` the nested field
      definitions accumulated from the nodes before `i`.  The accumulator
      is never reset: each node's nested fields are appended to it and the
      whole of it is handed to traverseNodes. */
  function Walk(f: seq<JValue>, i: nat, acc: seq<JValue>): (r: Result<seq<Field>>)
    requires i <= |f|
    ensures r.Ok? ==> WalkResult(f, i, r.value)
    ensures r.Err? ==> r.error == Malformed
    decreases Max(MaxDepth(f), MaxDepth(acc) + 1), 3, |f| - i
  {
    if i == |f| then Ok([])
    else if !HasName(f[i]) then Err(Malformed)
    else
      var m := f[i].members;
      match NestedFields(m)
      case Err(e) => Err(e)
      case Ok(nested) =>
        var acc' := acc + nested;
        var node := Record(m["name"].s, Member(m, "type"), acc');
        WalkMeasure(f, i, acc, nested);
        match Resolve(node)
        case Err(e) => Err(e)
        case Ok(field) =>
          match Walk(f, i + 1, acc')
          case Err(e) => Err(e)
          case Ok(rest) =>
            WalkCons(f, i, field, rest);
            Ok([field] + rest)
  }

  /** traverseNodes: dispatch on the shape of the type value. */
  function Resolve(node: Record): (r: Result<Field>)
    ensures r.Ok? ==> r.value.name == node.name && WellFormedField(r.value)
    ensures r.Err? ==> r.error == Malformed
    decreases Max(Depth(node.ofType), MaxDepth(node.fields)) + 1, 2, 0
  {
    match node.ofType
    case JStr(s) =>
      if |node.fields| == 0 then Ok(Plain(node.name, AvroPrimitiveToArrowType(s)))
      else if s == "record" then AsStruct(node.name, Walk(node.fields, 0, []))
      else Ok(Plain(node.name, Binary))
    case JObj(t) => ResolveObject(node.name, t)
    case JArr(alts) => UnionScan(node.name, alts, 0, [])
    case _ => Ok(Plain(node.name, Binary))
  }

  /** traverseNodes on an object type value: items, symbols, logicalType,
      size, values, fields, in that order.  The accumulated nested fields of
      the caller play no part here. */
  function ResolveObject(name: string, t: map<string, JValue>): (r: Result<Field>)
    ensures r.Ok? ==> r.value.name == name && WellFormedField(r.value)
    ensures r.Err? ==> r.error == Malformed
    decreases Depth(JObj(t)) + 1, 1, 0
  {
    if "items" in t then
      if t["items"].JStr? then Ok(Plain(name, List(AvroPrimitiveToArrowType(t["items"].s))))
      else Err(Malformed)
    else if "symbols" in t then
      (match StringList(t["symbols"])
       case Ok(symbols) => Ok(EnumField(name, symbols))
       case Err(e) => Err(e))
    else if "logicalType" in t && !t["logicalType"].JStr? then Err(Malformed)
    else if "logicalType" in t && LogicalArrowType(t["logicalType"].s).Some? then
      Ok(Plain(name, LogicalArrowType(t["logicalType"].s).value))
    else if "size" in t then
      if t["size"].JNum? then Ok(Plain(name, FixedSizeBinary(t["size"].n)))
      else Err(Malformed)
    else if "values" in t then
      if t["values"].JStr? then Ok(Plain(name, Map(Utf8, AvroPrimitiveToArrowType(t["values"].s))))
      else Err(Malformed)
    else
      match OwnFields(t)
      case Err(e) => Err(e)
      case Ok(objs) =>
        OwnFieldsShallower(t);
        AsStruct(name, Walk(objs, 0, []))
  }

  /** The "fields" list of an object, empty when the key is absent. */
  function OwnFields(t: map<string, JValue>): (r: Result<seq<JValue>>)
    ensures r.Ok? && "fields" !in t ==> r.value == []
  {
    if "fields" in t then ObjectList(t["fields"]) else Ok([])
  }

  /** traverseNodes on a union, from alternative `j` on, with `unionTypes`
      the non-"null" string alternatives seen so far.  The first object
      alternative ends the scan with a struct of its own fields. */
  function UnionScan(name: string, alts: seq<JValue>, j: nat, unionTypes: seq<string>): (r: Result<Field>)
    requires j <= |alts|
    ensures r.Ok? ==> r.value.name == name && WellFormedField(r.value)
    ensures r.Err? ==> r.error == Malformed
    decreases Depth(JArr(alts)) + 1, 1, |alts| - j
  {
    if j == |alts| then
      Ok(Plain(name, if |unionTypes| == 1 then AvroPrimitiveToArrowType(unionTypes[0]) else Binary))
    else match alts[j]
      case JStr(s) => UnionScan(name, alts, j + 1, if s != "null" then unionTypes + [s] else unionTypes)
      case JObj(m) =>
        (match OwnFields(m)
         case Err(e) => Err(e)
         case Ok(objs) =>
           DepthElem(alts, j);
           OwnFieldsShallower(m);
           AsStruct(name, Walk(objs, 0, [])))
      case _ => UnionScan(name, alts, j + 1, unionTypes)
  }

  // ---------------------------------------------------------------------
  // ArrowSchemaFromAvro
  // ---------------------------------------------------------------------

  /** The top-level field list of the decoded document: its "fields" entry
      when the document is an object that has one, otherwise nothing. */
  function TopLevelFields(doc: JValue): (r: Result<seq<JValue>>)
    ensures !(doc.JObj? && "fields" in doc.members) ==> r == Ok([])
    ensures doc.JObj? && "fields" in doc.members ==>
      (r.Ok? <==> doc.members["fields"].JArr? && AllObjects(doc.members["fields"].elems))
    ensures r.Ok? && doc.JObj? && "fields" in doc.members ==> doc.members["fields"] == JArr(r.value)
    ensures r.Err? ==> r.error == Malformed
  {
    if doc.JObj? && "fields" in doc.members then ObjectList(doc.members["fields"]) else Ok([])
  }

  /** ArrowSchemaFromAvro on an already decoded document. */
  function AvroSchema(doc: JValue): (r: Result<Schema>)
    ensures r == Err(NoTopLevelFields) <==> TopLevelFields(doc) == Ok([])
    ensures r.Ok? ==> TopLevelFields(doc).Ok? && |r.value.fields| == |TopLevelFields(doc).value|
    ensures r.Ok? ==> TopLevelFields(doc).Ok? && WalkResult(TopLevelFields(doc).value, 0, r.value.fields)
  {
    match TopLevelFields(doc)
    case Err(e) => Err(e)
    case Ok(top) =>
      if |top| == 0 then Err(NoTopLevelFields)
      else match Walk(top, 0, [])
        case Err(e) => Err(e)
        case Ok(fields) => Ok(Schema(fields))
  }

  // ---------------------------------------------------------------------
  // The source's loops, proved equal to the functions above
  // ---------------------------------------------------------------------

  /** `Some(acc + objs)` when `v` is a list of objects `objs`. */
  function Appended(into: seq<JValue>, v: JValue): Result<seq<JValue>>
  {
    match ObjectList(v)
    case Ok(objs) => Ok(into + objs)
    case Err(e) => Err(e)
  }

  /** The copy loops of avro.go: `for _, v := range x.([]interface{})`
      appending `v.(map[string]interface{})` to a record's fields. */
  method AppendObjects(into: seq<JValue>, v: JValue) returns (r: Result<seq<JValue>>)
    ensures r == Appended(into, v)
  {
    if !v.JArr? {
      return Err(Malformed);
    }
    var out := into;
    var k := 0;
    while k < |v.elems|
      invariant 0 <= k <= |v.elems|
      invariant out == into + v.elems[..k]
      invariant AllObjects(v.elems[..k])
    {
      if !v.elems[k].JObj? {
        return Err(Malformed);
      }
      assert v.elems[..k + 1] == v.elems[..k] + [v.elems[k]];
      out := out + [v.elems[k]];
      k := k + 1;
    }
    assert v.elems[..k] == v.elems;
    return Ok(out);
  }

  /** `rest` with the fields already produced put in front. */
  function Prepend(done: seq<Field>, rest: Result<seq<Field>>): Result<seq<Field>>
  {
    match rest
    case Ok(fields) => Ok(done + fields)
    case Err(e) => Err(e)
  }

  /** The nested-field step of iterateFields: the nested field definitions
      of node `m` appended to the accumulator `into`. */
  method AppendNested(into: seq<JValue>, m: map<string, JValue>) returns (r: Result<seq<JValue>>)
    ensures r.Ok? <==> NestedFields(m).Ok?
    ensures r.Ok? ==> r.value == into + NestedFields(m).value
  {
    if "fields" !in m {
      assert into + [] == into;
      return Ok(into);
    }
    var nf := m["fields"];
    match nf
    case JObj(inner) =>
      r := AppendObjects(into, Member(inner, "fields"));
    case _ =>
      r := AppendObjects(into, nf);
  }

  /** iterateFields: one record `n` for the whole loop; its name and type are
      overwritten for every node while its nested fields only grow. */
  method IterateFields(f: seq<JValue>) returns (r: Result<seq<Field>>)
    ensures r == Walk(f, 0, [])
    decreases Max(MaxDepth(f), 1), 3, 0
  {
    var s: seq<Field> := [];
    var n := Record("", JNull, []);
    var i := 0;
    PrependNothing(Walk(f, 0, []));
    while i < |f|
      invariant 0 <= i <= |f|
      invariant Walk(f, 0, []) == Prepend(s, Walk(f, i, n.fields))
      invariant MaxDepth(n.fields) + 1 <= Max(MaxDepth(f), 1)
    {
      var visited := VisitNode(f, i, n);
      if visited.Err? {
        return Err(Malformed);
      }
      var field;
      n, field := visited.value.0, visited.value.1;
      PrependStep(s, field, Walk(f, i + 1, n.fields));
      s := s + [field];
      i := i + 1;
    }
    PrependNothing(Ok(s));
    return Ok(s);
  }

  /** One turn of iterateFields' loop on node `f[i]`: the reused record `n`
      gets the node's name and type, the node's nested fields are appended
      to those `n` already holds, and traverseNodes translates `n`. */
  method VisitNode(f: seq<JValue>, i: nat, n: Record) returns (r: Result<(Record, Field)>)
    requires i < |f|
    ensures r.Err? ==> r.error == Malformed && Walk(f, i, n.fields).Err?
    ensures r.Ok? ==> Walk(f, i, n.fields) == Prepend([r.value.1], Walk(f, i + 1, r.value.0.fields))
    ensures r.Ok? ==> Max(MaxDepth(f), MaxDepth(r.value.0.fields) + 1) <= Max(MaxDepth(f), MaxDepth(n.fields) + 1)
    decreases Max(MaxDepth(f), MaxDepth(n.fields) + 1), 2, 1
  {
    if !HasName(f[i]) {
      return Err(Malformed);
    }
    var m := f[i].members;
    var next := n.(name := m["name"].s, ofType := Member(m, "type"));
    var appended := AppendNested(next.fields, m);
    if appended.Err? {
      return Err(Malformed);
    }
    next := next.(fields := appended.value);
    WalkMeasure(f, i, n.fields, NestedFields(m).value);
    var field := TraverseNodes(next);
    if field.Err? {
      return Err(Malformed);
    }
    return Ok((next, field.value));
  }

  lemma PrependNothing(r: Result<seq<Field>>)
    ensures Prepend([], r) == r
    ensures r.Ok? ==> Prepend(r.value, Ok([])) == r
  {
    if r.Ok? {
      assert [] + r.value == r.value;
      assert r.value + [] == r.value;
    }
  }

  lemma PrependStep(done: seq<Field>, field: Field, rest: Result<seq<Field>>)
    ensures Prepend(done, Prepend([field], rest)) == Prepend(done + [field], rest)
  {
    if rest.Ok? {
      assert done + ([field] + rest.value) == (done + [field]) + rest.value;
    }
  }

  /** traverseNodes. */
  method TraverseNodes(node: Record) returns (r: Result<Field>)
    ensures r == Resolve(node)
    decreases Max(Depth(node.ofType), MaxDepth(node.fields)) + 1, 2, 0
  {
    match node.ofType
    case JStr(s) =>
      if |node.fields| == 0 {
        return Ok(Plain(node.name, AvroPrimitiveToArrowType(s)));
      }
      if s == "record" {
        var n := Record(node.name, node.ofType, []);
        n := n.(fields := n.fields + node.fields);
        assert n.fields == node.fields;
        var fields := IterateFields(n.fields);
        return AsStruct(node.name, fields);
      }
      return Ok(Plain(node.name, Binary));
    case JObj(t) =>
      r := TraverseObject(node.name, t);
    case JArr(alts) =>
      r := TraverseUnion(node.name, alts);
    case _ =>
      return Ok(Plain(node.name, Binary));
  }

  /** traverseNodes on an object type value. */
  method TraverseObject(name: string, t: map<string, JValue>) returns (r: Result<Field>)
    ensures r == ResolveObject(name, t)
    decreases Depth(JObj(t)) + 1, 1, 0
  {
    if "items" in t {
      var i := t["items"];
      if !i.JStr? {
        return Err(Malformed);
      }
      return Ok(Plain(name, List(AvroPrimitiveToArrowType(i.s))));
    }
    if "symbols" in t {
      var list := StringList(t["symbols"]);
      if list.Err? {
        return Err(Malformed);
      }
      var field := EnumDictionary(name, list.value);
      return Ok(field);
    }
    if "logicalType" in t {
      var i := t["logicalType"];
      if !i.JStr? {
        return Err(Malformed);
      }
      match i.s
      case "decimal" =>
      case "uuid" => return Ok(Plain(name, Utf8));
      case "date" => return Ok(Plain(name, Date32));
      case "time-millis" => return Ok(Plain(name, Time32ms));
      case "time-micros" => return Ok(Plain(name, Time64us));
      case "timestamp-micros" => return Ok(Plain(name, TimestampUs));
      case "local-timestamp-millis" => return Ok(Plain(name, TimestampMs));
      case "local-timestamp-micros" => return Ok(Plain(name, TimestampUs));
      case "duration" => return Ok(Plain(name, MonthDayNanoInterval));
      case _ =>
    }
    if "size" in t {
      var i := t["size"];
      if !i.JNum? {
        return Err(Malformed);
      }
      return Ok(Plain(name, FixedSizeBinary(i.n)));
    }
    if "values" in t {
      var i := t["values"];
      if !i.JStr? {
        return Err(Malformed);
      }
      return Ok(Plain(name, Map(Utf8, AvroPrimitiveToArrowType(i.s))));
    }
    var n := Record(name, Member(t, "type"), []);
    if "fields" in t {
      var appended := AppendObjects(n.fields, t["fields"]);
      if appended.Err? {
        return Err(Malformed);
      }
      n := n.(fields := appended.value);
      assert [] + t["fields"].elems == t["fields"].elems;
    }
    assert OwnFields(t) == Ok(n.fields);
    OwnFieldsShallower(t);
    var s := IterateFields(n.fields);
    return AsStruct(n.name, s);
  }

  /** The enum arm of traverseNodes: fill the symbol table, then pick the
      index type from the table's size. */
  method EnumDictionary(name: string, list: seq<string>) returns (field: Field)
    ensures field == EnumField(name, list)
  {
    var symbols: map<string, string> := map[];
    var index := 0;
    while index < |list|
      invariant 0 <= index <= |list|
      invariant symbols == SymbolTable(list[..index])
    {
      SymbolTableGrows(list, index);
      symbols := symbols[FormatDecimal(index) := list[index]];
      index := index + 1;
    }
    assert list[..index] == list;
    var sl := |symbols|;
    var indexType := Uint64;
    if sl <= 0xFF {
      indexType := Uint8;
    } else if sl > 0xFF && sl <= 0xFFFF {
      indexType := Uint16;
    } else if sl > 0xFFFF && sl <= 0xFFFF_FFFF {
      indexType := Uint32;
    }
    assert indexType == IndexTypeFor(sl);
    return Field(name, Dictionary(indexType, Utf8), true, symbols);
  }

  /** traverseNodes on a union: collect the non-"null" string alternatives,
      or stop at the first object alternative. */
  method TraverseUnion(name: string, alts: seq<JValue>) returns (r: Result<Field>)
    ensures r == UnionScan(name, alts, 0, [])
    decreases Depth(JArr(alts)) + 1, 1, 0
  {
    var unionTypes: seq<string> := [];
    var j := 0;
    while j < |alts|
      invariant 0 <= j <= |alts|
      invariant UnionScan(name, alts, 0, []) == UnionScan(name, alts, j, unionTypes)
    {
      if alts[j].JStr? {
        if alts[j].s != "null" {
          unionTypes := unionTypes + [alts[j].s];
        }
      } else if alts[j].JObj? {
        var m := alts[j].members;
        var n := Record(name, Member(m, "type"), []);
        if "fields" in m {
          var appended := AppendObjects(n.fields, m["fields"]);
          if appended.Err? {
            return Err(Malformed);
          }
          n := n.(fields := appended.value);
          assert [] + m["fields"].elems == m["fields"].elems;
        }
        assert OwnFields(m) == Ok(n.fields);
        DepthElem(alts, j);
        OwnFieldsShallower(m);
        var f := IterateFields(n.fields);
        return AsStruct(name, f);
      }
      j := j + 1;
    }
    if |unionTypes| == 1 {
      return Ok(Plain(name, AvroPrimitiveToArrowType(unionTypes[0])));
    }
    return Ok(Plain(name, Binary));
  }

  /** ArrowSchemaFromAvro, given the decoded document. */
  method ArrowSchemaFromAvro(doc: JValue) returns (r: Result<Schema>)
    ensures r == AvroSchema(doc)
  {
    var node := Record("", JNull, []);
    if doc.JObj? && "fields" in doc.members {
      var appended := AppendObjects(node.fields, doc.members["fields"]);
      if appended.Err? {
        return Err(Malformed);
      }
      node := node.(fields := appended.value);
      assert [] + doc.members["fields"].elems == doc.members["fields"].elems;
    }
    assert TopLevelFields(doc) == Ok(node.fields);
    if |node.fields| == 0 {
      return Err(NoTopLevelFields);
    }
    var fields := IterateFields(node.fields);
    if fields.Err? {
      return Err(fields.error);
    }
    return Ok(Schema(fields.value));
  }

  // ---------------------------------------------------------------------
  // Termination facts
  // ---------------------------------------------------------------------

  lemma OwnFieldsShallower(t: map<string, JValue>)
    requires OwnFields(t).Ok?
    ensures Max(MaxDepth(OwnFields(t).value), 1) <= Depth(JObj(t))
  {
    var objs := OwnFields(t).value;
    if "fields" in t {
      DepthMember(t, "fields");
      MaxDepthArr(objs);
    }
  }

  lemma NestedFieldsShallower(m: map<string, JValue>)
    requires NestedFields(m).Ok?
    ensures NestedFields(m).value != [] ==> MaxDepth(NestedFields(m).value) + 2 <= Depth(JObj(m))
  {
    var nested := NestedFields(m).value;
    if "fields" in m {
      DepthMember(m, "fields");
      if m["fields"].JObj? {
        var inner := m["fields"].members;
        assert inner["fields"] == JArr(nested);
        DepthMember(inner, "fields");
      }
      MaxDepthArr(nested);
    }
  }

  /** The postcondition of `Walk` carries over from the rest of the list
      to the list with one more field in front. */
  predicate WalkResult(f: seq<JValue>, i: nat, fields: seq<Field>)
    requires i <= |f|
  {
    && |fields| == |f| - i
    && (forall j :: i <= j < |f| ==> HasName(f[j]) && f[j].members["name"].s == fields[j - i].name)
    && (forall j :: 0 <= j < |fields| ==> WellFormedField(fields[j]))
  }

  lemma WalkCons(f: seq<JValue>, i: nat, field: Field, rest: seq<Field>)
    requires i < |f| && HasName(f[i]) && field.name == f[i].members["name"].s && WellFormedField(field)
    requires WalkResult(f, i + 1, rest)
    ensures WalkResult(f, i, [field] + rest)
  {
    var out := [field] + rest;
    forall j | i < j < |f| ensures HasName(f[j]) && f[j].members["name"].s == out[j - i].name {
      assert out[j - i] == rest[j - (i + 1)];
    }
  }

  lemma WalkMeasure(f: seq<JValue>, i: nat, acc: seq<JValue>, nested: seq<JValue>)
    requires i < |f| && HasName(f[i])
    requires NestedFields(f[i].members) == Ok(nested)
    ensures Max(Depth(Member(f[i].members, "type")), MaxDepth(acc + nested)) + 1
      <= Max(MaxDepth(f), MaxDepth(acc) + 1)
    ensures Max(MaxDepth(f), MaxDepth(acc + nested) + 1) <= Max(MaxDepth(f), MaxDepth(acc) + 1)
  {
    var m := f[i].members;
    MaxDepthElem(f, i);
    NestedFieldsShallower(m);
    DepthMember(m, "name");
    if "type" in m {
      DepthMember(m, "type");
    }
    var bound := Max(MaxDepth(f) - 1, MaxDepth(acc));
    MaxDepthConcat(acc, nested, bound);
  }
}
