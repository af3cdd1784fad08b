/** The part of the Apache Arrow type system the translator produces: the
    data types it names, a field (name, type, nullability, metadata) and a
    schema built from a list of fields. */
module Arrow {

  datatype ArrowType =
    | Boolean
    | Int8 | Int16 | Int32 | Int64
    | Uint8 | Uint16 | Uint32 | Uint64
    | Float32 | Float64
    | Utf8                                  // arrow.BinaryTypes.String
    | Binary                                // arrow.BinaryTypes.Binary, the catch-all
    | FixedSizeBinary(byteWidth: int)
    | Date32
    | Time32ms
    | Time64us
    | TimestampMs                           // arrow.FixedWidthTypes.Timestamp_ms
    | TimestampUs                           // arrow.FixedWidthTypes.Timestamp_us
    | MonthDayNanoInterval
    | List(elem: ArrowType)
    | Map(key: ArrowType, item: ArrowType)
    | Struct(fields: seq<Field>)
    | Dictionary(indexType: ArrowType, valueType: ArrowType)

  datatype Field = Field(name: string, ty: ArrowType, nullable: bool, metadata: map<string, string>)

  datatype Schema = Schema(fields: seq<Field>)

  /** `arrow.Field{Name: name, Type: ty}`: not nullable, no metadata. */
  function Plain(name: string, ty: ArrowType): (f: Field)
    ensures f.name == name && f.ty == ty && !f.nullable && f.metadata == map[]
  {
    Field(name, ty, false, map[])
  }

  /** The largest value of an unsigned integer type. */
  function UnsignedMax(t: ArrowType): nat
    requires t.Uint8? || t.Uint16? || t.Uint32? || t.Uint64?
  {
    match t
    case Uint8 => 0xFF
    case Uint16 => 0xFFFF
    case Uint32 => 0xFFFF_FFFF
    case Uint64 => 0xFFFF_FFFF_FFFF_FFFF
  }

  /** The unsigned types a dictionary index may take, narrowest first. */
  const IndexTypes: seq<ArrowType> := [Uint8, Uint16, Uint32, Uint64]
}
