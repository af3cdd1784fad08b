/** Properties of the map translator: what each kind of value turns into,
    which values yield no field, and what stays the same whatever order the
    map is visited in. */
module GoMapProperties {
  import Arrow
  import opened GoMap

  /** Only the first element of a slice decides the element type of its
      list. */
  lemma FirstElementDecides(x: GoValue, a: seq<GoValue>, b: seq<GoValue>, f: Arrow.Field)
    ensures FieldMatches(Slice([x] + a), f) <==> FieldMatches(Slice([x] + b), f)
    ensures FieldMatches(Slice([x] + a), f) <==> f == Arrow.Plain(f.name, Arrow.List(NameType(x)))
  {
    assert ([x] + a)[0] == x && ([x] + b)[0] == x;
  }

  /** An empty slice yields no field at all. */
  lemma EmptySliceHasNoField(f: Arrow.Field)
    ensures !FieldMatches(Slice([]), f)
  {
  }

  /** int8, int16, uint8 and uint16 are missing from the scalar arm of the
      type switch, so on their own they become Binary; as the first element
      of a slice they go through the name table and keep their width. */
  lemma NarrowIntegers(k: Kind, rest: seq<GoValue>, name: string)
    requires k in {Int8, Int16, Uint8, Uint16}
    ensures FieldMatches(Scalar(k), Arrow.Plain(name, Arrow.Binary))
    ensures k == Int8 ==> FieldMatches(Slice([Scalar(k)] + rest), Arrow.Plain(name, Arrow.List(Arrow.Int8)))
    ensures k == Int16 ==> FieldMatches(Slice([Scalar(k)] + rest), Arrow.Plain(name, Arrow.List(Arrow.Int16)))
    ensures k == Uint8 ==> FieldMatches(Slice([Scalar(k)] + rest), Arrow.Plain(name, Arrow.List(Arrow.Uint8)))
    ensures k == Uint16 ==> FieldMatches(Slice([Scalar(k)] + rest), Arrow.Plain(name, Arrow.List(Arrow.Uint16)))
  {
    FirstElementDecides(Scalar(k), rest, [], Arrow.Plain(name, Arrow.List(KindType(k))));
  }

  /** nil, complex numbers and values of any other Go type become Binary. */
  lemma BinaryFallbacks(v: GoValue, f: Arrow.Field)
    requires v.Nil? || v.Other? || (v.Scalar? && v.kind in {Complex64, Complex128})
    ensures FieldMatches(v, f) <==> f == Arrow.Plain(f.name, Arrow.Binary)
  {
  }

  /** A slice of objects or of slices becomes a list of Binary: reflection
      names their type "map[string]interface {}" or "[]interface {}", which
      the name table does not list. */
  lemma NestedCollectionsInSlices(x: GoValue, rest: seq<GoValue>, f: Arrow.Field)
    requires x.Object? || x.Slice?
    ensures FieldMatches(Slice([x] + rest), f) <==> f == Arrow.Plain(f.name, Arrow.List(Arrow.Binary))
  {
    FirstElementDecides(x, rest, [], f);
  }

  /** For every value that is not an object, the field it yields under a
      given name is unique. */
  lemma LeafFieldUnique(v: GoValue, f: Arrow.Field, g: Arrow.Field)
    requires !v.Object? && FieldMatches(v, f) && FieldMatches(v, g) && f.name == g.name
    ensures f == g
  {
  }

  /** Two field lists that differ at most in the order of their fields, at
      every level of nesting. */
  predicate SameUpToOrder(s1: seq<Arrow.Field>, s2: seq<Arrow.Field>)
    decreases s1, 1
  {
    && |s1| == |s2| && Names(s1) == Names(s2)
    && forall i, j :: 0 <= i < |s1| && 0 <= j < |s2| && s1[i].name == s2[j].name ==> SameField(s1[i], s2[j])
  }

  predicate SameField(f: Arrow.Field, g: Arrow.Field)
    decreases f, 0
  {
    || f == g
    || (&& f.name == g.name && f.nullable == g.nullable && f.metadata == g.metadata
        && f.ty.Struct? && g.ty.Struct? && SameUpToOrder(f.ty.fields, g.ty.fields))
  }

  /** Whatever order Go visits the map in, at whatever depth, the schema
      comes out the same up to the order of fields. */
  lemma {:induction false} OrderIndependent(m: map<string, GoValue>, s1: seq<Arrow.Field>, s2: seq<Arrow.Field>)
    requires Describes(m, m.Keys, s1) && Describes(m, m.Keys, s2)
    ensures SameUpToOrder(s1, s2)
    decreases Object(m)
  {
    DescribesNames(m, m.Keys, s1);
    DescribesNames(m, m.Keys, s2);
    forall i, j | 0 <= i < |s1| && 0 <= j < |s2| && s1[i].name == s2[j].name
      ensures SameField(s1[i], s2[j])
    {
      var v := m[s1[i].name];
      if v.Object? {
        OrderIndependent(v.entries, s1[i].ty.fields, s2[j].ty.fields);
      } else {
        LeafFieldUnique(v, s1[i], s2[j]);
      }
    }
  }

  /** A map holding only empty slices produces an empty schema. */
  lemma OnlyEmptySlices(m: map<string, GoValue>, s: seq<Arrow.Field>)
    requires forall k :: k in m ==> m[k] == Slice([])
    requires Describes(m, m.Keys, s)
    ensures s == []
  {
    DescribesNames(m, m.Keys, s);
    assert KeptKeys(m) == {};
  }
}
