/** Table schemas and their flattening into one (name, type) pair per
    top-level field, as `walkFields` does before any cell is decoded. */
module Schema {
  import opened Errors

  /** A schema field: name, type (STRING, INTEGER, FLOAT, BOOLEAN, TIMESTAMP,
      RECORD or anything the service sends), mode, and the nested fields of a
      RECORD.  The same shape serves the schema file of a load and the schema
      of a query reply. */
  datatype TableField = TableField(name: string, ftype: string, mode: string, fields: seq<TableField>)

  /** A flattened field: the name a decoded value is stored under and the
      primitive type it is decoded as. */
  datatype FieldType = FieldType(name: string, ftype: string)

  /** `prefix.name`, or `name` alone when there is no prefix. */
  function Qualify(prefix: string, name: string): string
  {
    if prefix == "" then name else prefix + "." + name
  }

  /** walkFields: a primitive field is qualified by the prefix it is given; a
      RECORD is replaced by its first nested field, walked with that field's
      own name as prefix; a RECORD without nested fields gives ("", ""). */
  function WalkFields(prefix: string, schema: TableField): (r: FieldType)
    ensures r.ftype != "RECORD"
    decreases schema
  {
    if schema.ftype != "RECORD" then
      FieldType(Qualify(prefix, schema.name), schema.ftype)
    else if |schema.fields| > 0 then
      WalkFields(schema.fields[0].name, schema.fields[0])
    else
      FieldType("", "")
  }

  /** Reference definition: the primitive field reached by following first
      children down from `f`, if the descent does not end in an empty RECORD. */
  function FirstLeaf(f: TableField): (r: Option<TableField>)
    ensures r.Some? ==> r.value.ftype != "RECORD"
    decreases f
  {
    if f.ftype != "RECORD" then Some(f)
    else if |f.fields| > 0 then FirstLeaf(f.fields[0])
    else None
  }

  /** What a RECORD flattens to: the leaf's name qualified by itself. */
  function FlattenedRecord(leaf: Option<TableField>): FieldType
  {
    match leaf
    case None => FieldType("", "")
    case Some(l) => FieldType(Qualify(l.name, l.name), l.ftype)
  }

  lemma {:induction false} WalkOwnName(f: TableField)
    ensures WalkFields(f.name, f) == FlattenedRecord(FirstLeaf(f))
    decreases f
  {
    if f.ftype == "RECORD" && |f.fields| > 0 {
      WalkOwnName(f.fields[0]);
    }
  }

  /** walkFields against the reference definition.  A primitive field keeps its
      own name under the prefix.  A RECORD ignores both the prefix and its own
      name: it becomes its first leaf named `leaf.leaf` (the parent name is
      dropped and the leaf name doubled), and every sibling of a first child is
      ignored. */
  lemma {:induction false} WalkFieldsSpec(prefix: string, f: TableField)
    ensures f.ftype != "RECORD" ==> WalkFields(prefix, f) == FieldType(Qualify(prefix, f.name), f.ftype)
    ensures f.ftype == "RECORD" ==> WalkFields(prefix, f) == FlattenedRecord(FirstLeaf(f))
  {
    if f.ftype == "RECORD" && |f.fields| > 0 {
      WalkOwnName(f.fields[0]);
    }
  }

  /** The flattened field list of a schema: one entry per top-level field. */
  function Flatten(fields: seq<TableField>): (r: seq<FieldType>)
    ensures |r| == |fields|
  {
    seq(|fields|, i requires 0 <= i < |fields| => WalkFields("", fields[i]))
  }

  /** The loop at the head of toRows: walk every top-level field with an empty
      prefix, appending the results in order. */
  method FlattenFields(fields: seq<TableField>) returns (names: seq<FieldType>)
    ensures names == Flatten(fields)
  {
    names := [];
    for k := 0 to |fields|
      invariant |names| == k
      invariant forall j | 0 <= j < k :: names[j] == WalkFields("", fields[j])
    {
      var name := WalkFields("", fields[k]);
      names := names + [name];
    }
  }
}
