// Schema declarations.

module SchemaTypes {
  import opened Wrappers

  datatype Datatype = Str | Int | Float | Bool | DateTime | AnyUri | Bytes | Json

  datatype Cardinality = Cardinality(min: nat, max: Option<nat>)

  datatype PropertyType = PropertyType(
    name: string, datatyp: Datatype, cardinality: Cardinality, iri: Option<string>, description: Option<string>)

  datatype NodeType = NodeType(
    name: string, iri: Option<string>, supertypes: seq<string>, properties: seq<PropertyType>,
    description: Option<string>)

  datatype EdgeType = EdgeType(
    name: string, iri: Option<string>, domain: seq<string>, range: seq<string>, cardinality: Cardinality)
}
