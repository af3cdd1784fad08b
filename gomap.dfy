/** Schema inference from an already-decoded `map[string]interface{}`:
    every value becomes one Arrow field named by its key, except an empty
    slice, which yields none.  Go's map iteration order is unspecified, so
    the traversal picks its next key nondeterministically and its contract
    is an order-free description of the result. */
module GoMap {
  import Arrow
  import opened Results

  /** The dynamic type of a scalar held in an `interface{}`. */
  datatype Kind =
    | Bool | String
    | Int | Int8 | Int16 | Int32 | Int64
    | Uint | Uint8 | Uint16 | Uint32 | Uint64
    | Float32 | Float64
    | Complex64 | Complex128

  /** A value held in an `interface{}`: nil, a scalar of some kind, a
      `map[string]interface{}`, a `[]interface{}`, or a value of any other
      Go type, known only by the name `%T` prints for it. */
  datatype GoValue =
    | Nil
    | Scalar(kind: Kind)
    | Object(entries: map<string, GoValue>)
    | Slice(elems: seq<GoValue>)
    | Other(typeName: OtherTypeName)

  /** The name of a Go type outside the ones Kind lists (`uintptr`, a
      pointer, a struct, another map or slice type, a named type such as
      `main.T`): none of them is a name GoPrimitiveToArrowType translates. */
  type OtherTypeName = t: string | GoPrimitiveToArrowType(t) == Arrow.Binary witness "uintptr"

  function KindName(k: Kind): string
  {
    match k
    case Bool => "bool"
    case String => "string"
    case Int => "int"
    case Int8 => "int8"
    case Int16 => "int16"
    case Int32 => "int32"
    case Int64 => "int64"
    case Uint => "uint"
    case Uint8 => "uint8"
    case Uint16 => "uint16"
    case Uint32 => "uint32"
    case Uint64 => "uint64"
    case Float32 => "float32"
    case Float64 => "float64"
    case Complex64 => "complex64"
    case Complex128 => "complex128"
  }

  /** The type name `fmt.Sprintf("%T", v)` and `reflect.TypeOf(v).String()`
      give; for nil, `%T` prints "<nil>".  No value the map holds is named
      "nil" or "map", the two names the source's switches test for that
      never come up. */
  function TypeName(v: GoValue): (n: string)
    ensures !v.Other? ==> n != "nil" && n != "map"
    ensures v.Other? ==> GoPrimitiveToArrowType(n) == Arrow.Binary
  {
    match v
    case Nil => "<nil>"
    case Scalar(k) => KindName(k)
    case Object(_) => "map[string]interface {}"
    case Slice(_) => "[]interface {}"
    case Other(t) => t
  }

  /** The names GoPrimitiveToArrowType translates to something other than
      Binary. */
  const GoPrimitives: map<string, Arrow.ArrowType> := map[
    "bool" := Arrow.Boolean, "string" := Arrow.Utf8,
    "int" := Arrow.Int32, "int8" := Arrow.Int8, "int16" := Arrow.Int16, "int32" := Arrow.Int32, "int64" := Arrow.Int64,
    "uint" := Arrow.Uint32, "uint8" := Arrow.Uint8, "uint16" := Arrow.Uint16, "uint32" := Arrow.Uint32, "uint64" := Arrow.Uint64,
    "float32" := Arrow.Float32, "float64" := Arrow.Float64]

  /** The switch is the table GoPrimitives, with Binary for every other
      name ("nil" included). */
  function GoPrimitiveToArrowType(goType: string): (t: Arrow.ArrowType)
    ensures goType in GoPrimitives ==> t == GoPrimitives[goType]
    ensures goType !in GoPrimitives ==> t == Arrow.Binary
  {
    match goType
    case "bool" => Arrow.Boolean
    case "string" => Arrow.Utf8
    case "int" => Arrow.Int32
    case "int8" => Arrow.Int8
    case "int16" => Arrow.Int16
    case "int32" => Arrow.Int32
    case "int64" => Arrow.Int64
    case "uint" => Arrow.Uint32
    case "uint8" => Arrow.Uint8
    case "uint16" => Arrow.Uint16
    case "uint32" => Arrow.Uint32
    case "uint64" => Arrow.Uint64
    case "float32" => Arrow.Float32
    case "float64" => Arrow.Float64
    case "nil" => Arrow.Binary
    case _ => Arrow.Binary
  }

  /** The Arrow type of each scalar kind, by kind rather than by name: the
      reference the translation by name is checked against (NameTypeAgrees).
      It is written out on Kind, not read from GoPrimitives, so that the
      descriptions of traverseMap's result never compare strings. */
  function KindType(k: Kind): Arrow.ArrowType
  {
    match k
    case Bool => Arrow.Boolean
    case String => Arrow.Utf8
    case Int => Arrow.Int32
    case Int8 => Arrow.Int8
    case Int16 => Arrow.Int16
    case Int32 => Arrow.Int32
    case Int64 => Arrow.Int64
    case Uint => Arrow.Uint32
    case Uint8 => Arrow.Uint8
    case Uint16 => Arrow.Uint16
    case Uint32 => Arrow.Uint32
    case Uint64 => Arrow.Uint64
    case Float32 => Arrow.Float32
    case Float64 => Arrow.Float64
    case Complex64 => Arrow.Binary
    case Complex128 => Arrow.Binary
  }

  /** The type GoPrimitiveToArrowType gives a value's `%T` name. */
  function NameType(v: GoValue): Arrow.ArrowType
  {
    if v.Scalar? then KindType(v.kind) else Arrow.Binary
  }

  /** Translating a value's type name agrees with translating its kind:
      only scalars of the fourteen integer, float, bool and string kinds
      get a type other than Binary. */
  lemma NameTypeAgrees(v: GoValue)
    ensures GoPrimitiveToArrowType(TypeName(v)) == NameType(v)
  {
    match v
    case Scalar(k) => {
      match k
      case Bool =>
      case String =>
      case Int =>
      case Int8 =>
      case Int16 =>
      case Int32 =>
      case Int64 =>
      case Uint =>
      case Uint8 =>
      case Uint16 =>
      case Uint32 =>
      case Uint64 =>
      case Float32 =>
      case Float64 =>
      case Complex64 =>
      case Complex128 =>
    }
    case Other(t) =>
    case _ =>
  }

  /** The kinds the scalar arm of traverseMap's type switch lists. */
  predicate ListedKind(k: Kind)
  {
    k in {Int, Uint, Int32, Uint32, Int64, Uint64, Float32, Float64, Bool, String, Complex64, Complex128}
  }

  /** The type of a value that is neither an object nor a slice: the
      listed scalars and nil go through GoPrimitiveToArrowType by their
      `%T` name, anything else is Binary. */
  function ScalarType(v: GoValue): (t: Arrow.ArrowType)
    requires !v.Object? && !v.Slice?
    ensures v.Scalar? && ListedKind(v.kind) ==> t == KindType(v.kind)
    ensures v.Nil? || v.Other? || (v.Scalar? && !ListedKind(v.kind)) ==> t == Arrow.Binary
  {
    if v.Nil? || (v.Scalar? && ListedKind(v.kind)) then NameType(v) else Arrow.Binary
  }

  /** Whether a value yields a field at all: an empty slice does not. */
  predicate Kept(v: GoValue)
  {
    !(v.Slice? && v.elems == [])
  }

  /** The keys of `m` that yield a field. */
  function KeptKeys(m: map<string, GoValue>): (keys: set<string>)
    ensures keys <= m.Keys
    ensures forall k :: k in m ==> (k in keys <==> Kept(m[k]))
  {
    set k | k in m && Kept(m[k])
  }

  /** What reflection demands of the input: no slice reached through nested
      objects starts with nil, whose `reflect.Type` is nil. */
  predicate Traversable(m: map<string, GoValue>)
    decreases Object(m), 0
  {
    forall k :: k in m ==> TraversableValue(m[k])
  }

  predicate TraversableValue(v: GoValue)
    decreases v, 1
  {
    match v
    case Object(e) => Traversable(e)
    case Slice(es) => es == [] || !es[0].Nil?
    case _ => true
  }

  /** Field `f` is what traverseMap produces for value `v` under f's name. */
  predicate FieldMatches(v: GoValue, f: Arrow.Field)
    decreases v, 1
  {
    && !f.nullable && f.metadata == map[]
    && match v
       case Object(e) => f.ty.Struct? && Describes(e, e.Keys, f.ty.fields)
       case Slice(es) => es != [] && f.ty == Arrow.List(NameType(es[0]))
       case _ => f.ty == ScalarType(v)
  }

  /** `s` lists one field for each key of `keys` whose value is kept, in
      some order, each matching its value, under distinct names. */
  predicate Describes(m: map<string, GoValue>, keys: set<string>, s: seq<Arrow.Field>)
    decreases Object(m), 0
  {
    && (forall i :: 0 <= i < |s| ==> s[i].name in keys && s[i].name in m && FieldMatches(m[s[i].name], s[i]))
    && (forall i, j :: 0 <= i < j < |s| ==> s[i].name != s[j].name)
    && (forall k :: k in keys && k in m && Kept(m[k]) ==> exists i :: 0 <= i < |s| && s[i].name == k)
  }

  function Names(s: seq<Arrow.Field>): (names: set<string>)
    ensures forall i :: 0 <= i < |s| ==> s[i].name in names
    ensures forall n :: n in names ==> exists i :: 0 <= i < |s| && s[i].name == n
  {
    set i | 0 <= i < |s| :: s[i].name
  }

  // ---------------------------------------------------------------------
  // traverseMap and ArrowSchemaFromMap
  // ---------------------------------------------------------------------

  /** traverseMap: one field per kept entry, keys visited in an order the
      model leaves open. */
  method TraverseMap(m: map<string, GoValue>) returns (s: seq<Arrow.Field>)
    requires Traversable(m)
    ensures Describes(m, m.Keys, s)
    ensures Names(s) == KeptKeys(m) && |s| == |KeptKeys(m)|
    decreases Object(m), 0
  {
    s := [];
    var remaining := m.Keys;
    while remaining != {}
      invariant Progress(m, remaining, s)
      decreases remaining
    {
      var k :| k in remaining;
      var next := EntryField(k, m[k]);
      ProgressStep(m, remaining, s, k, next);
      if next.Some? {
        s := s + [next.value];
      }
      remaining := remaining - {k};
    }
    assert m.Keys - remaining == m.Keys;
    DescribesNames(m, m.Keys, s);
  }

  /** The type switch in traverseMap's loop body: the field entry `k: v`
      contributes, or None for an empty slice. */
  method EntryField(k: string, v: GoValue) returns (next: Option<Arrow.Field>)
    requires TraversableValue(v)
    ensures next.Some? ==> next.value.name == k && FieldMatches(v, next.value)
    ensures next.None? <==> !Kept(v)
    decreases v, 1
  {
    if v.Object? {
      var inner := TraverseMap(v.entries);
      next := Some(Arrow.Plain(k, Arrow.Struct(inner)));
    } else if v.Slice? {
      if |v.elems| > 0 {
        NameTypeAgrees(v.elems[0]);
        next := Some(Arrow.Plain(k, Arrow.List(GoPrimitiveToArrowType(TypeName(v.elems[0])))));
      } else {
        next := None;
      }
    } else if v.Nil? || (v.Scalar? && ListedKind(v.kind)) {
      NameTypeAgrees(v);
      next := Some(Arrow.Plain(k, GoPrimitiveToArrowType(TypeName(v))));
    } else {
      next := Some(Arrow.Plain(k, Arrow.Binary));
    }
  }

  /** ArrowSchemaFromMap never reports an error. */
  method ArrowSchemaFromMap(m: map<string, GoValue>) returns (r: Result<Arrow.Schema>)
    requires Traversable(m)
    ensures r.Ok?
    ensures Describes(m, m.Keys, r.value.fields) && Names(r.value.fields) == KeptKeys(m)
  {
    var s := TraverseMap(m);
    return Ok(Arrow.Schema(s));
  }

  // ---------------------------------------------------------------------
  // Loop steps
  // ---------------------------------------------------------------------

  /** The loop invariant of TraverseMap: the keys already visited are
      described by `s`, one field per kept key. */
  predicate Progress(m: map<string, GoValue>, remaining: set<string>, s: seq<Arrow.Field>)
  {
    && remaining <= m.Keys
    && Describes(m, m.Keys - remaining, s)
  }

  lemma ProgressStep(m: map<string, GoValue>, remaining: set<string>, s: seq<Arrow.Field>, k: string, next: Option<Arrow.Field>)
    requires Progress(m, remaining, s) && k in remaining
    requires next.Some? ==> next.value.name == k && FieldMatches(m[k], next.value)
    requires next.None? <==> !Kept(m[k])
    ensures Progress(m, remaining - {k}, if next.Some? then s + [next.value] else s)
  {
    var done := m.Keys - remaining;
    assert m.Keys - (remaining - {k}) == done + {k};
    if next.Some? {
      DescribesAppend(m, done, s, k, next.value);
    } else {
      DescribesSkip(m, done, s, k);
    }
  }

  lemma DescribesAppend(m: map<string, GoValue>, done: set<string>, s: seq<Arrow.Field>, k: string, f: Arrow.Field)
    requires Describes(m, done, s)
    requires k in m && k !in done && f.name == k && FieldMatches(m[k], f)
    ensures Describes(m, done + {k}, s + [f])
  {
    var s' := s + [f];
    forall i | 0 <= i < |s'|
      ensures s'[i].name in done + {k} && s'[i].name in m && FieldMatches(m[s'[i].name], s'[i])
    {
      if i == |s| {
        assert s'[i] == f;
      } else {
        assert s'[i] == s[i];
      }
    }
    forall i, j | 0 <= i < j < |s'| ensures s'[i].name != s'[j].name {
      if j < |s| {
        assert s'[i] == s[i] && s'[j] == s[j];
      } else {
        assert s'[i] == s[i] && s'[j] == f;
      }
    }
    forall key | key in done + {k} && key in m && Kept(m[key])
      ensures exists i :: 0 <= i < |s'| && s'[i].name == key
    {
      if key == k {
        assert s'[|s|].name == key;
      } else {
        var i :| 0 <= i < |s| && s[i].name == key;
        assert s'[i].name == key;
      }
    }
  }

  lemma DescribesSkip(m: map<string, GoValue>, done: set<string>, s: seq<Arrow.Field>, k: string)
    requires Describes(m, done, s)
    requires k in m && !Kept(m[k])
    ensures Describes(m, done + {k}, s)
  {
  }

  // ---------------------------------------------------------------------
  // Counting the fields
  // ---------------------------------------------------------------------

  /** A description of the keys `keys` names exactly the kept ones among
      them, each once. */
  lemma DescribesNames(m: map<string, GoValue>, keys: set<string>, s: seq<Arrow.Field>)
    requires Describes(m, keys, s)
    ensures Names(s) == KeptKeys(m) * keys
    ensures |s| == |KeptKeys(m) * keys|
  {
    forall n | n in Names(s) ensures n in KeptKeys(m) * keys {
      var i :| 0 <= i < |s| && s[i].name == n;
      FieldMatchesKept(m[n], s[i]);
    }
    DistinctNamesCount(s);
  }

  /** Only a kept value has a matching field. */
  lemma FieldMatchesKept(v: GoValue, f: Arrow.Field)
    requires FieldMatches(v, f)
    ensures Kept(v)
  {
  }

  lemma NamesAppend(s: seq<Arrow.Field>, f: Arrow.Field)
    ensures Names(s + [f]) == Names(s) + {f.name}
  {
    var s' := s + [f];
    forall n | n in Names(s') ensures n in Names(s) + {f.name} {
      var i :| 0 <= i < |s'| && s'[i].name == n;
      if i < |s| {
        assert s[i].name in Names(s);
      }
    }
    forall n | n in Names(s) + {f.name} ensures n in Names(s') {
      if n != f.name {
        var i :| 0 <= i < |s| && s[i].name == n;
        assert s'[i].name == n;
      } else {
        assert s'[|s|].name == n;
      }
    }
  }

  lemma {:induction false} DistinctNamesCount(s: seq<Arrow.Field>)
    requires forall i, j :: 0 <= i < j < |s| ==> s[i].name != s[j].name
    ensures |Names(s)| == |s|
  {
    if s != [] {
      var init := s[..|s| - 1];
      var last := s[|s| - 1];
      assert s == init + [last];
      DistinctNamesCount(init);
      NamesAppend(init, last);
    }
  }
}
