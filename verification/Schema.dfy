/** SchemaConfig, the Avro record schema assembled from it, and the typed datum of a column. */
module Schema {
  import opened Basics

  datatype SchemaConfig = SchemaConfig(
    name: string, keyColumn: string, columns: seq<string>,
    columnMap: map<string, string>, columnTypeTransforms: map<string, string>, schemaId: int)
  {
    /** The record field a column is written to. */
    function Renamed(column: string): string {
      if column in columnMap then columnMap[column] else column
    }

    function TypeName(column: string): string {
      if column in columnTypeTransforms then columnTypeTransforms[column] else "string"
    }

    /** Field names of an Avro record are distinct. */
    predicate Distinct() {
      forall i, j | 0 <= i < j < |columns| :: Renamed(columns[i]) != Renamed(columns[j])
    }
  }

  datatype AvroType = StringType | FloatType | DoubleType | IntType | LongType
  datatype Field = Field(name: string, ty: AvroType)

  function DeclaredType(typeName: string): AvroType {
    if typeName == "float" then FloatType
    else if typeName == "double" then DoubleType
    else if typeName == "int" then IntType
    else if typeName == "long" then LongType
    else StringType
  }

  predicate KnownType(typeName: string) {
    typeName == "string" || DeclaredType(typeName) != StringType
  }

  function SchemaOf(c: SchemaConfig): (fields: seq<Field>)
    ensures |fields| == |c.columns|
    ensures forall j | 0 <= j < |fields| ::
      fields[j] == Field(c.Renamed(c.columns[j]), DeclaredType(c.TypeName(c.columns[j])))
  {
    seq(|c.columns|, j requires 0 <= j < |c.columns| =>
      Field(c.Renamed(c.columns[j]), DeclaredType(c.TypeName(c.columns[j]))))
  }

  /** ConfigParser::assemble_schema. */
  method AssembleSchema(c: SchemaConfig) returns (record: seq<Field>)
    ensures record == SchemaOf(c)
  {
    record := [];
    for k := 0 to |c.columns|
      invariant |record| == k
      invariant forall j | 0 <= j < k :: record[j] == SchemaOf(c)[j]
    {
      var field := c.columns[k];
      var fieldName := field;
      if field in c.columnMap {
        fieldName := c.columnMap[field];
      }
      var typeName := "string";
      if field in c.columnTypeTransforms {
        typeName := c.columnTypeTransforms[field];
      }
      if typeName == "float" {
        record := record + [Field(fieldName, FloatType)];
      } else if typeName == "double" {
        record := record + [Field(fieldName, DoubleType)];
      } else if typeName == "int" {
        record := record + [Field(fieldName, IntType)];
      } else if typeName == "long" {
        record := record + [Field(fieldName, LongType)];
      } else {
        record := record + [Field(fieldName, StringType)];
      }
    }
  }

  /** The number parsers of the C++ library: None is the exception they throw. Floating-point
      results are opaque tokens. */
  datatype Conversions = Conversions(
    stof: string -> Option<int>, stod: string -> Option<int>,
    stoi: string -> Option<int>, stol: string -> Option<int>)

  datatype Datum = StringDatum(text: string) | NumberDatum(ty: AvroType, number: int) {
    function Type(): AvroType {
      if StringDatum? then StringType else ty
    }
  }

  function Number(ty: AvroType, parsed: Option<int>): Option<Datum> {
    if parsed.Some? then Some(NumberDatum(ty, parsed.value)) else None
  }

  /** Util::create_datum_for_type: None is an exception, from a parser or for an unknown type. */
  function CreateDatum(value: string, typeName: string, conv: Conversions): Option<Datum> {
    if typeName == "string" then Some(StringDatum(value))
    else if typeName == "float" then Number(FloatType, conv.stof(value))
    else if typeName == "double" then Number(DoubleType, conv.stod(value))
    else if typeName == "int" then Number(IntType, conv.stoi(value))
    else if typeName == "long" then Number(LongType, conv.stol(value))
    else None
  }

  /** The datum has the declared type whenever there is one; for a type the schema assembler
      silently takes as a string there never is one. */
  lemma DatumAgrees(value: string, typeName: string, conv: Conversions)
    ensures CreateDatum(value, typeName, conv).Some? ==>
      KnownType(typeName) && CreateDatum(value, typeName, conv).value.Type() == DeclaredType(typeName)
    ensures typeName == "string" ==> CreateDatum(value, typeName, conv) == Some(StringDatum(value))
  {
  }

  /** GenericRecord::fieldIndex: None is the exception for a name the schema does not have. */
  function FieldIndex(fields: seq<Field>, name: string): Option<nat> {
    if fields == [] then None
    else if fields[0].name == name then Some(0)
    else
      var k := FieldIndex(fields[1..], name);
      if k.Some? then Some(k.value + 1) else None
  }

  lemma {:induction false} FirstFieldIndex(fields: seq<Field>, k: nat)
    requires k < |fields| && forall i | 0 <= i < k :: fields[i].name != fields[k].name
    ensures FieldIndex(fields, fields[k].name) == Some(k)
  {
    if k > 0 {
      FirstFieldIndex(fields[1..], k - 1);
    }
  }

  /** With distinct renamed columns each column's record position is its own. */
  lemma PositionOfColumn(c: SchemaConfig, j: nat)
    requires c.Distinct() && j < |c.columns|
    ensures FieldIndex(SchemaOf(c), c.Renamed(c.columns[j])) == Some(j)
  {
    FirstFieldIndex(SchemaOf(c), j);
  }
}
